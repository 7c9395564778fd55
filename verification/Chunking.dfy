/** The result of parsing does not depend on how the tunnel's bytes were cut into chunks.
    The reference is an automaton that takes one byte at a time and, like the loop of `unpackV1`,
    accepts any version; what Write's own version check adds is in Versions.dfy. */
module Chunking {
  import opened Text
  import opened Addrs
  import opened Header
  import opened ParserModel

  // ---------- what a trace says once it is cut as finely as possible ----------

  /** One routed byte, or one RouteBytes call with no bytes. Two traces with the same atoms differ
      only in how the payload of a single frame was split over calls. */
  datatype Atom =
    | Empty(src: Addr, dst: Addr)
    | Byte(src: Addr, dst: Addr, offset: int, value: byte)

  function PayloadAtoms(src: Addr, dst: Addr, offset: int, payload: bytes): (a: seq<Atom>)
    ensures |a| == |payload|
  {
    seq(|payload|, i requires 0 <= i < |payload| => Byte(src, dst, offset + i, payload[i]))
  }

  function RouteAtoms(r: Route): seq<Atom> {
    if r.payload == [] then [Empty(r.src, r.dst)] else PayloadAtoms(r.src, r.dst, r.offset, r.payload)
  }

  function Atoms(routed: seq<Route>): seq<Atom> {
    if routed == [] then [] else RouteAtoms(routed[0]) + Atoms(routed[1..])
  }

  lemma {:induction false} AtomsAppend(a: seq<Route>, b: seq<Route>)
    ensures Atoms(a + b) == Atoms(a) + Atoms(b)
  {
    if a == [] {
      assert a + b == b;
    } else {
      assert (a + b)[1..] == a[1..] + b;
      AtomsAppend(a[1..], b);
    }
  }

  lemma AtomsOfOne(r: Route)
    ensures Atoms([r]) == RouteAtoms(r)
  {
    assert [r][1..] == [];
  }

  // ---------- the byte automaton ----------

  datatype Fed = Fed(m: Machine, atoms: seq<Atom>, error: Error)

  function Then(atoms: seq<Atom>, f: Fed): Fed { f.(atoms := atoms + f.atoms) }

  function StepReady(m: Machine, c: byte): Fed {
    var s := m.state;
    match m.phase
    case VersionState => Fed(Machine(HeaderLengthState, s.(version := c)), [], NoError)
    case HeaderLengthState => Fed(Machine(HeaderState, s.(headerLen := c)), [], NoError)
    case HeaderState =>
      var grown := if s.headerLen == 0 then m else m.(state := s.(header := s.header + [c]));
      if |grown.state.header| < s.headerLen then Fed(grown, [], NoError)
      else var f := FinishHeader(grown); Fed(f.m, Atoms(f.routed), f.error)
    case PayloadState =>
      if s.payloadLen < 0 then Fed(m, [], SlicePanic)
      else
        Fed(if s.payloadWritten + 1 == s.payloadLen then START
            else m.(state := s.(payloadWritten := s.payloadWritten + 1)),
            [Byte(s.srcAddr, s.dstAddr, s.payloadWritten, c)], NoError)
  }

  /** A zero-length frame is noticed only when the byte after it arrives; it is then reported with
      zero addresses, because the state has been reset by that time. */
  function Step(m: Machine, c: byte): Fed {
    if Pending(m) then Then([Empty(NO_ADDR, NO_ADDR)], StepReady(START, c)) else StepReady(m, c)
  }

  function Fold(m: Machine, b: bytes): Fed
    decreases |b|
  {
    if b == [] then Fed(m, [], NoError)
    else
      var f := Step(m, b[0]);
      if f.error != NoError then f else Then(f.atoms, Fold(f.m, b[1..]))
  }

  lemma {:induction false} FoldAppend(m: Machine, a: bytes, b: bytes)
    ensures Fold(m, a + b)
         == if Fold(m, a).error != NoError then Fold(m, a) else Then(Fold(m, a).atoms, Fold(Fold(m, a).m, b))
    decreases |a|
  {
    hide StepReady;
    if a == [] {
      assert a + b == b;
    } else {
      assert (a + b)[1..] == a[1..] + b;
      var f := Step(m, a[0]);
      if f.error == NoError { FoldAppend(f.m, a[1..], b); }
    }
  }

  lemma FoldOne(m: Machine, c: byte)
    ensures Fold(m, [c]) == Step(m, c)
  {
    hide StepReady;
    assert [c][1..] == [];
    assert Fold(Step(m, c).m, []) == Fed(Step(m, c).m, [], NoError);
  }

  lemma StepKeepsSound(m: Machine, c: byte)
    requires Sound(m)
    ensures Step(m, c).error == NoError ==> Sound(Step(m, c).m)
  {
    hide ParseHeader;
  }

  lemma {:induction false} FoldKeepsSound(m: Machine, b: bytes)
    requires Sound(m)
    ensures Fold(m, b).error == NoError ==> Sound(Fold(m, b).m)
    decreases |b|
  {
    hide StepReady, Sound;
    if b != [] {
      StepKeepsSound(m, b[0]);
      if Step(m, b[0]).error == NoError { FoldKeepsSound(Step(m, b[0]).m, b[1..]); }
    }
  }

  // ---------- a pass over many bytes is many steps ----------

  lemma {:induction false} FoldHeader(m: Machine, c: bytes)
    requires Sound(m) && m.phase == HeaderState && m.state.headerLen > 0
    requires 0 < |c| <= m.state.headerLen - |m.state.header|
    ensures var grown := m.(state := m.state.(header := m.state.header + c));
            var f := FinishHeader(grown);
            Fold(m, c) == if |m.state.header + c| < m.state.headerLen then Fed(grown, [], NoError)
                          else Fed(f.m, Atoms(f.routed), f.error)
    decreases |c|
  {
    hide FinishHeader;
    var a, d := c[..|c| - 1], c[|c| - 1];
    assert c == a + [d];
    if a == [] {
      FoldOne(m, d);
      assert c == [d];
    } else {
      FoldHeader(m, a);
      FoldAppend(m, a, [d]);
      var mid := m.(state := m.state.(header := m.state.header + a));
      FoldOne(mid, d);
      assert mid.state.header + [d] == m.state.header + c;
      assert [] + Step(mid, d).atoms == Step(mid, d).atoms;
    }
  }

  lemma {:induction false} FoldPayload(m: Machine, c: bytes)
    requires Sound(m) && m.phase == PayloadState && m.state.payloadWritten < m.state.payloadLen
    requires 0 < |c| <= m.state.payloadLen - m.state.payloadWritten
    ensures var s := m.state;
            Fold(m, c) == Fed(if s.payloadWritten + |c| == s.payloadLen then START
                              else m.(state := s.(payloadWritten := s.payloadWritten + |c|)),
                              PayloadAtoms(s.srcAddr, s.dstAddr, s.payloadWritten, c), NoError)
    decreases |c|
  {
    hide Fold;
    var a, d := c[..|c| - 1], c[|c| - 1];
    var s := m.state;
    var mid := m.(state := s.(payloadWritten := s.payloadWritten + |a|));
    assert c == a + [d];
    assert PayloadAtoms(s.srcAddr, s.dstAddr, s.payloadWritten, c)
        == PayloadAtoms(s.srcAddr, s.dstAddr, s.payloadWritten, a)
           + [Byte(s.srcAddr, s.dstAddr, s.payloadWritten + |a|, d)];
    FoldOne(mid, d);
    if a == [] {
      assert c == [d] && mid == m;
    } else {
      FoldPayload(m, a);
      FoldAppend(m, a, [d]);
    }
  }

  lemma PassIsFold(m: Machine, b: bytes)
    requires b != [] && Sound(m)
    ensures var p := OnePass(m, b);
            && (p.Continue? ==> Sound(p.m) && Fold(m, b) == Then(Atoms(p.routed), Fold(p.m, p.rest)))
            && (p.Stop? ==> Fold(m, b) == Fed(p.m, Atoms(p.routed), p.error))
  {
    match m.phase
    case VersionState => PassKeepsSound(m, b);
    case HeaderLengthState =>
    case HeaderState => HeaderPassIsFold(m, b);
    case PayloadState => PayloadPassIsFold(m, b);
  }

  lemma HeaderPassShape(m: Machine, b: bytes)
    requires b != [] && Sound(m) && m.phase == HeaderState
    ensures var want := m.state.headerLen - |m.state.header|;
            var k := if |b| < want then |b| else want;
            && 0 <= k <= |b|
            && var grown := m.(state := m.state.(header := m.state.header + b[..k]));
               var f := FinishHeader(grown);
               OnePass(m, b) == if k < want then Continue(grown, b[k..], [])
                                else if f.error == NoError then Continue(f.m, b[k..], f.routed)
                                else Stop(f.m, b[k..], f.error, f.routed)
  {
    hide FinishHeader;
  }

  lemma HeaderPassIsFold(m: Machine, b: bytes)
    requires b != [] && Sound(m) && m.phase == HeaderState
    ensures var p := OnePass(m, b);
            && (p.Continue? ==> Sound(p.m) && Fold(m, b) == Then(Atoms(p.routed), Fold(p.m, p.rest)))
            && (p.Stop? ==> Fold(m, b) == Fed(p.m, Atoms(p.routed), p.error))
  {
    PassKeepsSound(m, b);
    var s := m.state;
    var want := s.headerLen - |s.header|;
    var k := if |b| < want then |b| else want;
    assert b[..k] + b[k..] == b;
    if s.headerLen == 0 {
      assert s.header + b[..k] == [];
      EmptyHeaderFails(m);
    } else {
      HeaderPassShape(m, b);
      hide FinishHeader, ParseHeader, Fold, Step, OnePass, HeaderPass;
      FoldHeader(m, b[..k]);
      FoldAppend(m, b[..k], b[k..]);
    }
  }

  lemma EmptyHeaderFails(m: Machine)
    requires m.state.header == []
    ensures FinishHeader(m) == Finished(m, BadHeader, [])
  {
    assert TrimSpace([]) == [];
    SplitLast([], COMMA);
    assert m.(state := m.state.(header := [])) == m;
  }

  lemma PayloadPassIsFold(m: Machine, b: bytes)
    requires b != [] && Sound(m) && m.phase == PayloadState
    ensures var p := OnePass(m, b);
            && (p.Continue? ==> Sound(p.m) && Fold(m, b) == Then(Atoms(p.routed), Fold(p.m, p.rest)))
            && (p.Stop? ==> Fold(m, b) == Fed(p.m, Atoms(p.routed), p.error))
  {
    hide Fold, OnePass;
    PassKeepsSound(m, b);
    if Pending(m) {
      LatePassIsFold(m, b);
    } else if m.state.payloadLen > 0 {
      BytesPassIsFold(m, b);
    } else {
      NegativeLengthPanics(m, b[0]);
      NegativeLengthPass(m, b);
      FoldUnfold(m, b);
    }
  }

  lemma LatePassIsFold(m: Machine, b: bytes)
    requires b != [] && Pending(m)
    ensures OnePass(m, b) == Continue(START, b, [Route(NO_ADDR, NO_ADDR, [], 0)])
    ensures Fold(m, b) == Then(Atoms(OnePass(m, b).routed), Fold(START, b))
  {
    hide Fold, StepReady;
    FoldUnfold(m, b);
    FoldUnfold(START, b);
    AtomsOfOne(Route(NO_ADDR, NO_ADDR, [], 0));
  }

  lemma BytesPassIsFold(m: Machine, b: bytes)
    requires b != [] && Sound(m) && m.phase == PayloadState && m.state.payloadLen > 0
    ensures var p := OnePass(m, b);
            p.Continue? && Fold(m, b) == Then(Atoms(p.routed), Fold(p.m, p.rest))
  {
    hide Fold, Step;
    var s := m.state;
    var want := s.payloadLen - s.payloadWritten;
    var k := if |b| < want then |b| else want;
    assert b[..k] + b[k..] == b;
    FoldPayload(m, b[..k]);
    FoldAppend(m, b[..k], b[k..]);
    AtomsOfOne(Route(s.srcAddr, s.dstAddr, b[..k], s.payloadWritten));
  }

  lemma NegativeLengthPass(m: Machine, b: bytes)
    requires b != [] && Sound(m) && m.phase == PayloadState && !Pending(m) && m.state.payloadLen < 0
    ensures OnePass(m, b) == Stop(m, b, SlicePanic, [])
  {
  }

  lemma NegativeLengthPanics(m: Machine, c: byte)
    requires m.phase == PayloadState && !Pending(m) && m.state.payloadLen < 0
    ensures Step(m, c) == Fed(m, [], SlicePanic)
  {
  }

  lemma FoldUnfold(m: Machine, b: bytes)
    requires b != []
    ensures var f := Step(m, b[0]);
            Fold(m, b) == if f.error != NoError then f else Then(f.atoms, Fold(f.m, b[1..]))
  {
    hide StepReady;
  }

  // ---------- loops, writes and runs are folds ----------

  /** What an outcome must look like to agree with the automaton: the same state, error and atoms,
      unless the run was cut short, and even then nothing but a prefix was routed. */
  predicate Agrees(o: Outcome, f: Fed) {
    && (o.error != LoopPanic && o.error != BadVersion ==> f == Fed(o.m, Atoms(o.routed), o.error))
    && Atoms(o.routed) <= f.atoms
  }

  lemma AgreesAfter(routed: seq<Route>, o: Outcome, f: Fed)
    requires Agrees(o, f)
    ensures Agrees(After(routed, o), Then(Atoms(routed), f))
  {
    AtomsAppend(routed, o.routed);
  }

  lemma {:induction false} LoopIsFold(m: Machine, b: bytes, z: nat)
    requires Sound(m)
    ensures Agrees(Loop(m, b, z), Fold(m, b))
    decreases 21 - z
  {
    hide OnePass, Sound, Step;
    LoopEnds(m, b, z);
    if z <= 20 && b != [] {
      PassIsFold(m, b);
      LoopUnfold(m, b, z);
      var p := OnePass(m, b);
      if p.Continue? {
        LoopIsFold(p.m, p.rest, z + 1);
        AgreesAfter(p.routed, Loop(p.m, p.rest, z + 1), Fold(p.m, p.rest));
      }
    }
  }

  /** A write is refused exactly when its version check fails, and then nothing happens; otherwise it
      does what its bytes do one by one. */
  lemma WriteIsFold(m: Machine, b: bytes)
    requires Sound(m) && b != []
    ensures Agrees(WriteOutcome(m, b), Fold(m, b))
    ensures WriteOutcome(m, b).error == BadVersion <==> !Admits(m, b[0])
    ensures !Admits(m, b[0]) ==> WriteOutcome(m, b).m == Primed(m, b[0]) && WriteOutcome(m, b).routed == []
  {
    hide FinishHeader, ParseHeader, OnePass, Loop;
    if m.phase == VersionState {
      FoldVersion(m, b);
      assert Then([], Fold(Primed(m, b[0]), b[1..])) == Fold(Primed(m, b[0]), b[1..]);
      LoopIsFold(Primed(m, b[0]), b[1..], 0);
      LoopTakesAll(Primed(m, b[0]), b[1..], 0);
    } else {
      LoopIsFold(m, b, 0);
      LoopTakesAll(m, b, 0);
    }
  }

  lemma FoldVersion(m: Machine, b: bytes)
    requires Sound(m) && b != [] && m.phase == VersionState
    ensures Fold(m, b) == Then([], Fold(Primed(m, b[0]), b[1..]))
  {
  }

  function Flat(chunks: seq<bytes>): bytes {
    if chunks == [] then [] else chunks[0] + Flat(chunks[1..])
  }

  predicate NonEmpty(chunks: seq<bytes>) { forall c :: c in chunks ==> c != [] }

  lemma {:induction false} FlatAppend(a: seq<bytes>, b: seq<bytes>)
    ensures Flat(a + b) == Flat(a) + Flat(b)
    ensures NonEmpty(a) && NonEmpty(b) ==> NonEmpty(a + b)
  {
    if a == [] {
      assert a + b == b;
    } else {
      assert (a + b)[1..] == a[1..] + b;
      FlatAppend(a[1..], b);
    }
  }

  /** A run over any chunks agrees with the automaton over their bytes. */
  lemma {:induction false} RunIsFold(m: Machine, chunks: seq<bytes>)
    requires Sound(m) && NonEmpty(chunks)
    ensures Agrees(Run(m, chunks), Fold(m, Flat(chunks)))
    decreases |chunks|
  {
    hide WriteOutcome, Sound, Step;
    RunUnfold(m, chunks);
    if chunks != [] {
      var b, rest := chunks[0], chunks[1..];
      assert b in chunks && forall c :: c in rest ==> c in chunks;
      FoldAppend(m, b, Flat(rest));
      WriteIsFold(m, b);
      var o := WriteOutcome(m, b);
      if o.error == NoError {
        FoldKeepsSound(m, b);
        RunIsFold(o.m, rest);
        AgreesAfter(o.routed, Run(o.m, rest), Fold(o.m, Flat(rest)));
      }
    }
  }

  /** Chunking independence, for any bytes at all, well formed or not: two ways of cutting the stream
      that neither trip the pass guard nor get a version refused give the same parser state, the same
      error and the same trace up to the splitting of a frame's payload. */
  lemma ChunkingIndependence(m: Machine, c1: seq<bytes>, c2: seq<bytes>)
    requires Sound(m) && Flat(c1) == Flat(c2) && NonEmpty(c1) && NonEmpty(c2)
    ensures var o1, o2 := Run(m, c1), Run(m, c2);
            o1.error !in {LoopPanic, BadVersion} && o2.error !in {LoopPanic, BadVersion} ==>
              o1.m == o2.m && o1.error == o2.error && Atoms(o1.routed) == Atoms(o2.routed)
  {
    hide Run, Fold;
    RunIsFold(m, c1);
    RunIsFold(m, c2);
  }

  // ---------- streams that no chunking gets refused ----------

  /** Wherever a chunk starts, Write's version check passes: no chunking of b can be refused. */
  predicate NeverRefused(m: Machine, b: bytes)
    decreases |b|
  {
    b == [] || (Admits(m, b[0]) && (Step(m, b[0]).error == NoError ==> NeverRefused(Step(m, b[0]).m, b[1..])))
  }

  lemma {:induction false} NeverRefusedAppend(m: Machine, a: bytes, b: bytes)
    ensures NeverRefused(m, a + b)
       <==> NeverRefused(m, a) && (Fold(m, a).error == NoError ==> NeverRefused(Fold(m, a).m, b))
    decreases |a|
  {
    hide StepReady, Admits;
    if a == [] {
      assert a + b == b;
    } else {
      assert (a + b)[1..] == a[1..] + b;
      if Step(m, a[0]).error == NoError { NeverRefusedAppend(Step(m, a[0]).m, a[1..], b); }
    }
  }

  lemma {:induction false} NeverRefusedRuns(m: Machine, chunks: seq<bytes>)
    requires Sound(m) && NonEmpty(chunks) && NeverRefused(m, Flat(chunks))
    ensures Run(m, chunks).error != BadVersion
    decreases |chunks|
  {
    hide WriteOutcome, Sound, Step, Admits, Fold;
    RunUnfold(m, chunks);
    if chunks != [] {
      var b, rest := chunks[0], chunks[1..];
      assert b in chunks && forall c :: c in rest ==> c in chunks;
      NeverRefusedAppend(m, b, Flat(rest));
      FirstAdmitted(m, b);
      WriteIsFold(m, b);
      if WriteOutcome(m, b).error == NoError {
        FoldKeepsSound(m, b);
        NeverRefusedRuns(WriteOutcome(m, b).m, rest);
      }
    }
  }

  lemma FirstAdmitted(m: Machine, b: bytes)
    requires b != [] && NeverRefused(m, b)
    ensures Admits(m, b[0])
  {
  }

  /** The counters are within bounds in every state the decoder can reach, whatever it reads. */
  lemma ReachedIsSound(chunks: seq<bytes>)
    requires NonEmpty(chunks)
    ensures Run(START, chunks).error == NoError ==> Sound(Run(START, chunks).m)
  {
    hide Run, Fold;
    RunIsFold(START, chunks);
    FoldKeepsSound(START, Flat(chunks));
  }
}
