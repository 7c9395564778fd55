/** Write looks at a version only at the start of a chunk, and then at whichever version the parser
    holds. Exactly when does the way a stream is cut decide what becomes of it? */
module Versions {
  import opened Text
  import opened Header
  import opened ParserModel
  import opened Chunking
  import opened Frames
  import opened PassGuard

  predicate SameOutcome(o1: Outcome, o2: Outcome) {
    o1.m == o2.m && o1.error == o2.error && Atoms(o1.routed) == Atoms(o2.routed)
  }

  /** A way of cutting b on which the pass guard does not fire. */
  predicate Cuts(m: Machine, b: bytes, chunks: seq<bytes>) {
    NonEmpty(chunks) && Flat(chunks) == b && Run(m, chunks).error != LoopPanic
  }

  ghost predicate ChunkingsAgree(m: Machine, b: bytes) {
    forall c1, c2 :: Cuts(m, b, c1) && Cuts(m, b, c2) ==> SameOutcome(Run(m, c1), Run(m, c2))
  }

  // ---------- runs ----------

  lemma {:induction false} RunAppend(m: Machine, c1: seq<bytes>, c2: seq<bytes>)
    ensures Run(m, c1 + c2)
         == if Run(m, c1).error != NoError then Run(m, c1) else After(Run(m, c1).routed, Run(Run(m, c1).m, c2))
    decreases |c1|
  {
    hide WriteOutcome, Run;
    RunUnfold(m, c1);
    if c1 == [] {
      assert c1 + c2 == c2;
    } else {
      RunUnfold(m, c1 + c2);
      assert (c1 + c2)[1..] == c1[1..] + c2;
      var o := WriteOutcome(m, c1[0]);
      if o.error == NoError {
        RunAppend(o.m, c1[1..], c2);
        var r1 := Run(o.m, c1[1..]);
        if r1.error == NoError {
          assert o.routed + (r1.routed + Run(r1.m, c2).routed) == o.routed + r1.routed + Run(r1.m, c2).routed;
        }
      }
    }
  }

  // ---------- one byte at a time ----------

  function Singles(b: bytes): (chunks: seq<bytes>)
    ensures NonEmpty(chunks) && Flat(chunks) == b
  {
    if b == [] then [] else [[b[0]]] + Singles(b[1..])
  }

  lemma {:induction false} PassesAtMost(m: Machine, b: bytes)
    requires Sound(m)
    ensures Passes(m, b) <= 2 * |b| - if m.phase == VersionState && b != [] then 1 else 0
    decreases |b|, Rank(m)
  {
    hide HeaderPass, PayloadPass, Passes;
    if b == [] {
      NoBytesNoPasses(m);
    } else {
      PassesUnfold(m, b);
      var p := OnePass(m, b);
      if p.Continue? {
        PassesAtMost(p.m, p.rest);
        if |p.rest| == |b| { OnlyLatePassTakesNothing(m, b); }
      }
    }
  }

  lemma OnlyLatePassTakesNothing(m: Machine, b: bytes)
    requires Sound(m) && b != [] && OnePass(m, b).Continue? && |OnePass(m, b).rest| == |b|
    ensures OnePass(m, b).m == START && m.phase != VersionState
  {
    if m.phase == HeaderState && m.state.headerLen == 0 {
      assert m.state.header + b[..0] == [];
      EmptyHeaderFails(m);
    }
  }

  /** Short chunks never trip the guard. */
  lemma ShortChunkIsFine(m: Machine, b: bytes)
    requires Sound(m) && 0 < |b| <= 10
    ensures WriteOutcome(m, b).error != LoopPanic
  {
    hide WriteOutcome, Passes, Fold;
    PassesAtMost(m, b);
    WriteGuard(m, b);
  }

  /** So there is always a way of cutting on which it does not fire. */
  lemma {:induction false} SinglesCut(m: Machine, b: bytes)
    requires Sound(m)
    ensures Cuts(m, b, Singles(b))
    decreases |b|
  {
    hide WriteOutcome, Fold, Sound;
    RunUnfold(m, Singles(b));
    if b != [] {
      ShortChunkIsFine(m, [b[0]]);
      WriteIsFold(m, [b[0]]);
      FoldKeepsSound(m, [b[0]]);
      var o := WriteOutcome(m, [b[0]]);
      assert Singles(b)[1..] == Singles(b[1..]);
      if o.error == NoError { SinglesCut(o.m, b[1..]); }
    }
  }

  // ---------- the first refusal ----------

  lemma {:induction false} FirstRefusal(m: Machine, b: bytes) returns (k: nat)
    requires !NeverRefused(m, b)
    ensures k < |b| && NeverRefused(m, b[..k])
    ensures Fold(m, b[..k]).error == NoError && !Admits(Fold(m, b[..k]).m, b[k])
    decreases |b|
  {
    hide Admits, StepReady;
    if !Admits(m, b[0]) {
      k := 0;
    } else {
      var f := Step(m, b[0]);
      var j := FirstRefusal(f.m, b[1..]);
      k := j + 1;
      assert b[..k][1..] == b[1..][..j] && b[..k] != [] && b[..k][0] == b[0];
    }
  }

  /** A version is first refused where a frame starts, or right after a foreign version byte that
      went unnoticed. */
  lemma WhereRefused(m: Machine, x: byte, c: byte)
    requires Sound(m) && Admits(m, x) && Step(m, x).error == NoError && !Admits(Step(m, x).m, c)
    ensures Step(m, x).m.phase == VersionState || Step(m, x).m.phase == HeaderLengthState
  {
    hide ParseHeader;
  }

  /** Two bytes into a frame, with a foreign version, the next chunk is refused where it stands. */
  lemma StuckInHeader(m: Machine, d: bytes)
    requires Sound(m) && m.phase == HeaderState && m.state.version != V1 && d != []
    ensures Run(m, Singles(d)).m == m && Run(m, Singles(d)).error == BadVersion
  {
    hide WriteOutcome, Fold;
    RunUnfold(m, Singles(d));
    WriteIsFold(m, [d[0]]);
  }

  /** The stream around its first refusal. */
  lemma AroundRefusal(m: Machine, b: bytes) returns (a: bytes, x: byte, c: byte, d: bytes)
    requires Sound(m) && b != [] && Admits(m, b[0]) && !NeverRefused(m, b)
    ensures b == a + ([x] + ([c] + d))
    ensures NeverRefused(m, a) && Fold(m, a).error == NoError && Sound(Fold(m, a).m)
    ensures NeverRefused(m, a + [x]) && Fold(m, a + [x]).error == NoError
    ensures Fold(m, a + [x]).m == Step(Fold(m, a).m, x).m
    ensures Admits(Fold(m, a).m, x) && Step(Fold(m, a).m, x).error == NoError && !Admits(Step(Fold(m, a).m, x).m, c)
  {
    hide Fold, Sound, Step, Admits, NeverRefused;
    var k := FirstRefusal(m, b);
    FoldNothing(m);
    assert b[..0] == [];
    a, x, c, d := b[..k - 1], b[k - 1], b[k], b[k + 1..];
    assert b[..k] == a + [x];
    FoldAppend(m, a, [x]);
    FoldOne(Fold(m, a).m, x);
    NeverRefusedAppend(m, a, [x]);
    FoldKeepsSound(m, a);
    FirstAdmitted(Fold(m, a).m, [x]);
  }

  /** If the first byte passes but a later place does not, two cuts of the stream disagree: one byte
      at a time the run is refused at that place; with that place inside a chunk it goes on. */
  lemma Disagree(m: Machine, b: bytes) returns (c1: seq<bytes>, c2: seq<bytes>)
    requires Sound(m) && b != [] && Admits(m, b[0]) && !NeverRefused(m, b)
    ensures Cuts(m, b, c1) && Cuts(m, b, c2) && !SameOutcome(Run(m, c1), Run(m, c2))
  {
    hide Fold, Run, Sound, Step, Admits, NeverRefused, Cuts, Singles;
    var a, x, c, d := AroundRefusal(m, b);
    WhereRefused(Fold(m, a).m, x, c);
    c1 := Singles(b);
    SinglesCut(m, b);
    assert b == (a + [x]) + ([c] + d);
    RefusedSingly(m, a + [x], c, d);
    c2 := GoesOn(m, a, x, c, d);
  }

  /** One byte at a time, a stream that is not refused is simply folded. */
  lemma RunSingles(m: Machine, a: bytes)
    requires Sound(m) && NeverRefused(m, a) && Fold(m, a).error == NoError
    ensures Run(m, Singles(a)).error == NoError && Run(m, Singles(a)).m == Fold(m, a).m && Sound(Fold(m, a).m)
  {
    hide Fold, Sound, Step, NeverRefused, Run;
    SinglesCut(m, a);
    RunIsFold(m, Singles(a));
    NeverRefusedRuns(m, Singles(a));
    FoldKeepsSound(m, a);
  }

  /** One byte at a time, the run ends at the refusal. */
  lemma RefusedSingly(m: Machine, a: bytes, c: byte, d: bytes)
    requires Sound(m) && NeverRefused(m, a) && Fold(m, a).error == NoError && !Admits(Fold(m, a).m, c)
    ensures Run(m, Singles(a + ([c] + d))).error == BadVersion
    ensures Run(m, Singles(a + ([c] + d))).m == Primed(Fold(m, a).m, c)
  {
    hide Fold, WriteOutcome, Sound, Step, Admits, NeverRefused, Run;
    SinglesAppend(a, [c] + d);
    RunAppend(m, Singles(a), Singles([c] + d));
    RunSingles(m, a);
    RefusedAtOnce(Fold(m, a).m, Singles([c] + d));
  }

  lemma {:induction false} SinglesAppend(a: bytes, b: bytes)
    ensures Singles(a + b) == Singles(a) + Singles(b)
    decreases |a|
  {
    if a == [] {
      assert a + b == b;
    } else {
      assert (a + b)[1..] == a[1..] + b;
      SinglesAppend(a[1..], b);
    }
  }

  /** With the refused place inside a chunk, the run gets into the header after it. */
  lemma GoesOn(m: Machine, a: bytes, x: byte, c: byte, d: bytes) returns (chunks: seq<bytes>)
    requires Sound(m) && NeverRefused(m, a) && Fold(m, a).error == NoError
    requires var m1 := Fold(m, a).m;
             Admits(m1, x) && Step(m1, x).error == NoError && !Admits(Step(m1, x).m, c)
    ensures Cuts(m, a + ([x] + ([c] + d)), chunks)
    ensures Run(m, chunks).error == NoError || Run(m, chunks).m.phase == HeaderState
  {
    hide Fold, Sound, Step, Admits, NeverRefused, Run, Flat, Singles, NonEmpty;
    var m1 := Fold(m, a).m;
    RunSingles(m, a);
    var extra := if Step(m1, x).m.phase == VersionState && d != [] then d[..1] else [];
    var mid, rest := [x, c] + extra, d[|extra|..];
    MidIsFold(m1, x, c, extra, rest);
    RunMid(m1, mid, rest);
    chunks := Singles(a) + ([mid] + Singles(rest));
    RunAppend(m, Singles(a), [mid] + Singles(rest));
    FlatAppend(Singles(a), [mid] + Singles(rest));
    assert a + ([x] + ([c] + d)) == a + (mid + rest);
  }

  lemma RunMid(m: Machine, mid: bytes, rest: bytes)
    requires Sound(m) && 0 < |mid| <= 3 && Admits(m, mid[0]) && Fold(m, mid).error == NoError
    requires rest != [] ==> Fold(m, mid).m.phase == HeaderState && Fold(m, mid).m.state.version != V1
    ensures NonEmpty([mid] + Singles(rest)) && Flat([mid] + Singles(rest)) == mid + rest
    ensures var o := Run(m, [mid] + Singles(rest));
            o.error == NoError || (o.error == BadVersion && o.m.phase == HeaderState)
  {
    hide Fold, WriteOutcome, Sound, Admits, Run;
    assert ([mid] + Singles(rest))[1..] == Singles(rest);
    ShortChunkIsFine(m, mid);
    WriteIsFold(m, mid);
    FoldKeepsSound(m, mid);
    RunUnfold(m, [mid] + Singles(rest));
    RunUnfold(Fold(m, mid).m, []);
    if rest != [] { StuckInHeader(Fold(m, mid).m, rest); }
  }

  lemma MidIsFold(m: Machine, x: byte, c: byte, extra: bytes, rest: bytes)
    requires Sound(m) && Admits(m, x) && Step(m, x).error == NoError && !Admits(Step(m, x).m, c)
    requires if Step(m, x).m.phase == VersionState then |extra| == 1 || (extra == [] && rest == []) else extra == []
    ensures var f := Fold(m, [x, c] + extra);
            && f.error == NoError
            && (rest != [] ==> f.m.phase == HeaderState && f.m.state.version != V1)
  {
    hide Fold, ParseHeader;
    var m2 := Step(m, x).m;
    WhereRefused(m, x, c);
    assert [x, c] + extra == [x] + ([c] + extra);
    FoldAppend(m, [x], [c] + extra);
    FoldOne(m, x);
    FoldAppend(m2, [c], extra);
    FoldOne(m2, c);
    if extra == [] { FoldNothing(Step(m2, c).m); } else {
      assert extra == [extra[0]];
      FoldOne(Step(m2, c).m, extra[0]);
    }
  }

  // ---------- the exact condition ----------

  lemma RefusedAtOnce(m: Machine, chunks: seq<bytes>)
    requires Sound(m) && NonEmpty(chunks) && Flat(chunks) != [] && !Admits(m, Flat(chunks)[0])
    ensures var o := Run(m, chunks);
            o.m == Primed(m, Flat(chunks)[0]) && o.error == BadVersion && o.routed == []
  {
    hide WriteOutcome, Admits;
    assert chunks[0] in chunks;
    RunUnfold(m, chunks);
    WriteIsFold(m, chunks[0]);
  }

  /** For every stream of bytes: all cuts of it that spare the pass guard have the same outcome
      exactly when no cut can be refused, or when every cut is refused at the first byte. */
  lemma ChunkingExact(m: Machine, b: bytes)
    requires Sound(m)
    ensures ChunkingsAgree(m, b) <==> NeverRefused(m, b) || (b != [] && !Admits(m, b[0]))
  {
    hide Run, NeverRefused, Admits, Sound;
    if NeverRefused(m, b) {
      forall c1, c2 | Cuts(m, b, c1) && Cuts(m, b, c2)
        ensures SameOutcome(Run(m, c1), Run(m, c2))
      {
        NeverRefusedRuns(m, c1);
        NeverRefusedRuns(m, c2);
        ChunkingIndependence(m, c1, c2);
      }
    } else if b != [] && !Admits(m, b[0]) {
      forall c1, c2 | Cuts(m, b, c1) && Cuts(m, b, c2)
        ensures SameOutcome(Run(m, c1), Run(m, c2))
      {
        RefusedAtOnce(m, c1);
        RefusedAtOnce(m, c2);
      }
    } else {
      assert b != [] by { if b == [] { NothingNeverRefused(m); } }
      var c1, c2 := Disagree(m, b);
    }
  }

  /** The condition on the bytes themselves. A foreign version byte after any frames makes the outcome
      depend on chunking, unless it follows an empty frame and is the last byte: there Write does not
      look at it at all. With no frame before it, it is always refused. */
  lemma ForeignVersion(ps: seq<Packet>, c: byte, d: bytes)
    requires AllSendable(ps) && c != V1
    ensures ChunkingsAgree(START, Bytes(ps) + ([c] + d))
       <==> ps == [] || (ps[|ps| - 1].payload == [] && d == [])
  {
    hide Fold, Bytes, ChunkingsAgree, NeverRefused, Sound, Done, AtBoundary, Sendable, AllSendable;
    var b, m := Bytes(ps), AfterAll(ps);
    StartIsBoundary();
    ChunkingExact(START, b + ([c] + d));
    if ps == [] {
      NoFrames();
      assert b + ([c] + d) == [c] + d;
    } else {
      hide Admits;
      BytesNotEmpty(ps);
      FoldWire(ps);
      BytesNeverRefused(START, ps);
      FirstAdmitted(START, b);
      assert (b + ([c] + d))[0] == b[0];
      NeverRefusedAppend(START, b, [c] + d);
      ForeignAfter(ps, c, d);
    }
  }

  lemma NoFrames()
    ensures Bytes([]) == []
  {
  }

  lemma StartIsBoundary()
    ensures AtBoundary(START) && Sound(START)
  {
  }

  lemma ForeignAfter(ps: seq<Packet>, c: byte, d: bytes)
    requires AllSendable(ps) && ps != [] && c != V1
    ensures NeverRefused(AfterAll(ps), [c] + d) <==> ps[|ps| - 1].payload == [] && d == []
  {
    hide FinishHeader, HeaderLine, Clean;
    var p := ps[|ps| - 1];
    assert ([c] + d)[0] == c && ([c] + d)[1..] == d;
    assert Step(AfterAll(ps), c).m == Machine(HeaderLengthState, EMPTY.(version := c));
    if d != [] { assert !Admits(Step(AfterAll(ps), c).m, d[0]); }
  }
}
