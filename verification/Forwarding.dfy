/** `Forward` in internal/telebit/telebit.go: two reader goroutines and one select loop copy both
    ways until one side ends, in any schedule. */
module Forwarding {
  import opened Text
  import opened Readers

  /** 0 is client to target, 1 is target to client. */
  type Way = w: nat | w < 2

  datatype Flow = Flow(read: bytes, written: bytes, reader: Reader)

  datatype Loop =
    | Selecting
    | Writing(way: Way, chunk: bytes)
    | ReadEnded(way: Way)
    | WriteEnded(way: Way, lost: bytes)   // the part of the last chunk that was not written

  datatype State = State(flows: seq<Flow>, loop: Loop)

  datatype Step =
    | ReadSome(way: Way, chunk: bytes, next: Next)
    | ReadFails(way: Way, eof: bool)
    | TakeChunk(way: Way)
    | WriteAll
    | WriteFails(n: nat)
    | TakeError(way: Way)

  const INIT: State := State([Flow([], [], Reading), Flow([], [], Reading)], Selecting)

  predicate Enabled(s: State, step: Step) {
    && |s.flows| == 2
    && match step
       case ReadSome(w, chunk, _) => s.flows[w].reader == Reading && 0 < |chunk| <= BUFFER_SIZE
       case ReadFails(w, _) => s.flows[w].reader == Reading
       case TakeChunk(w) => s.flows[w].reader.Offering? && s.loop == Selecting
       case WriteAll => s.loop.Writing?
       case WriteFails(n) => s.loop.Writing? && n <= |s.loop.chunk|
       case TakeError(w) => s.flows[w].reader.Failing? && s.loop == Selecting
  }

  function Apply(s: State, step: Step): State
    requires Enabled(s, step)
  {
    match step
    case ReadSome(w, chunk, next) =>
      s.(flows := s.flows[w := s.flows[w].(read := s.flows[w].read + chunk, reader := Offering(chunk, next))])
    case ReadFails(w, eof) => s.(flows := s.flows[w := s.flows[w].(reader := Failing(eof))])
    case TakeChunk(w) =>
      State(s.flows[w := s.flows[w].(reader := NextReader(s.flows[w].reader.next))],
            Writing(w, s.flows[w].reader.chunk))
    case WriteAll =>
      var w := s.loop.way;
      State(s.flows[w := s.flows[w].(written := s.flows[w].written + s.loop.chunk)], Selecting)
    case WriteFails(n) =>
      var w := s.loop.way;
      State(s.flows[w := s.flows[w].(written := s.flows[w].written + s.loop.chunk[..n])],
            WriteEnded(w, s.loop.chunk[n..]))
    case TakeError(w) => State(s.flows[w := s.flows[w].(reader := Stopped)], ReadEnded(w))
  }

  /** Bytes the reader of a way is still holding. */
  function Offered(f: Flow): bytes { if f.reader.Offering? then f.reader.chunk else [] }

  /** Bytes of a way that the loop has taken and not written. */
  function Taken(s: State, w: Way): bytes {
    match s.loop
    case Writing(w', chunk) => if w' == w then chunk else []
    case WriteEnded(w', lost) => if w' == w then lost else []
    case _ => []
  }

  predicate FlowInv(f: Flow, taken: bytes) {
    f.read == f.written + taken + Offered(f) && |Offered(f)| <= BUFFER_SIZE
  }

  predicate LoopInv(s: State)
    requires |s.flows| == 2
  {
    && (forall w :: 0 <= w < 2 && s.flows[w].reader == Stopped ==> s.loop == ReadEnded(w))
    && match s.loop
       case ReadEnded(w) => s.flows[w].reader == Stopped
       case Writing(_, chunk) => |chunk| <= BUFFER_SIZE
       case WriteEnded(_, lost) => |lost| <= BUFFER_SIZE
       case Selecting => true
  }

  predicate Inv(s: State) {
    && |s.flows| == 2 && LoopInv(s)
    && FlowInv(s.flows[0], Taken(s, 0)) && FlowInv(s.flows[1], Taken(s, 1))
  }

  lemma Reads(f: Flow, taken: bytes, chunk: bytes, next: Next)
    requires FlowInv(f, taken) && f.reader == Reading && |chunk| <= BUFFER_SIZE
    ensures FlowInv(f.(read := f.read + chunk, reader := Offering(chunk, next)), taken)
  {
    assert f.written + taken + [] + chunk == f.written + taken + chunk;
  }

  lemma Writes(f: Flow, taken: bytes, n: nat)
    requires FlowInv(f, taken) && n <= |taken|
    ensures FlowInv(f.(written := f.written + taken[..n]), taken[n..])
  {
    assert taken == taken[..n] + taken[n..];
    assert f.written + taken + Offered(f) == f.written + taken[..n] + taken[n..] + Offered(f);
  }

  lemma StepKeeps(s: State, step: Step)
    requires Inv(s) && Enabled(s, step)
    ensures Inv(Apply(s, step))
  {
    match step
    case ReadSome(w, chunk, next) =>
      hide FlowInv;
      Reads(s.flows[w], Taken(s, w), chunk, next);
    case WriteAll =>
      hide FlowInv;
      WritesAll(s.flows[s.loop.way], s.loop.chunk);
    case WriteFails(n) =>
      hide FlowInv;
      Writes(s.flows[s.loop.way], s.loop.chunk, n);
    case _ => ReaderSteps(s, step);
  }

  lemma WritesAll(f: Flow, taken: bytes)
    requires FlowInv(f, taken)
    ensures FlowInv(f.(written := f.written + taken), [])
  {
    Writes(f, taken, |taken|);
    assert taken[..|taken|] == taken && taken[|taken|..] == [];
  }

  lemma ReaderSteps(s: State, step: Step)
    requires Inv(s) && Enabled(s, step) && (step.ReadFails? || step.TakeChunk? || step.TakeError?)
    ensures Inv(Apply(s, step))
  {
  }

  ghost predicate IsRun(states: seq<State>, steps: seq<Step>) {
    && |states| == |steps| + 1 && states[0] == INIT
    && forall k :: 0 <= k < |steps| ==> Enabled(states[k], steps[k]) && states[k + 1] == Apply(states[k], steps[k])
  }

  lemma {:induction false} RunInv(states: seq<State>, steps: seq<Step>, k: nat)
    requires IsRun(states, steps) && k < |states|
    ensures Inv(states[k])
  {
    if k > 0 {
      hide Inv, Enabled, Apply;
      RunInv(states, steps, k - 1);
      StepKeeps(states[k - 1], steps[k - 1]);
    } else {
      assert Inv(INIT);
    }
  }

  // ---------- read off the steps ----------

  /** What one way has yielded, and whether reading it has failed. */
  function ReadOn(steps: seq<Step>, w: Way): bytes {
    if steps == [] then []
    else
      var front := ReadOn(steps[..|steps| - 1], w);
      match steps[|steps| - 1]
      case ReadSome(v, chunk, _) => if v == w then front + chunk else front
      case _ => front
  }

  predicate FailedOn(steps: seq<Step>, w: Way) {
    exists j :: 0 <= j < |steps|
                && (steps[j] in {ReadFails(w, true), ReadFails(w, false)}
                    || (steps[j].ReadSome? && steps[j].way == w && steps[j].next.Fails?))
  }

  predicate OriginInv(f: Flow, steps: seq<Step>, w: Way) {
    && f.read == ReadOn(steps, w)
    && (FailedOn(steps, w) <==> !(f.reader == Reading || (f.reader.Offering? && f.reader.next == More)))
  }

  lemma FailedSnoc(steps: seq<Step>, step: Step, w: Way)
    ensures FailedOn(steps + [step], w)
       <==> FailedOn(steps, w) || (step.ReadFails? && step.way == w)
            || (step.ReadSome? && step.way == w && step.next.Fails?)
  {
    var all := steps + [step];
    assert forall j :: 0 <= j < |steps| ==> all[j] == steps[j];
    assert all[|steps|] == step;
  }

  lemma ReadSnoc(steps: seq<Step>, step: Step, w: Way)
    ensures ReadOn(steps + [step], w)
         == ReadOn(steps, w) + if step.ReadSome? && step.way == w then step.chunk else []
  {
    assert (steps + [step])[..|steps|] == steps;
  }

  lemma OriginStep(s: State, step: Step, steps: seq<Step>, w: Way)
    requires Enabled(s, step) && OriginInv(s.flows[w], steps, w)
    ensures |Apply(s, step).flows| == 2 && OriginInv(Apply(s, step).flows[w], steps + [step], w)
  {
    hide FailedOn, ReadOn;
    FailedSnoc(steps, step, w);
    ReadSnoc(steps, step, w);
  }

  lemma {:induction false} RunOrigins(states: seq<State>, steps: seq<Step>, k: nat, w: Way)
    requires IsRun(states, steps) && k < |states|
    ensures |states[k].flows| == 2 && OriginInv(states[k].flows[w], steps[..k], w)
  {
    if k == 0 {
      assert steps[..0] == [];
    } else {
      hide OriginInv, Enabled, Apply;
      RunOrigins(states, steps, k - 1, w);
      OriginStep(states[k - 1], steps[k - 1], steps[..k - 1], w);
      assert steps[..k] == steps[..k - 1] + [steps[k - 1]];
    }
  }

  /** From an idle loop any chunk that is read can be written three steps later, and an error ends it. */
  lemma ChunkGetsThrough(s: State, w: Way, chunk: bytes)
    requires |s.flows| == 2 && s.loop == Selecting && s.flows[w].reader == Reading && 0 < |chunk| <= BUFFER_SIZE
    ensures Enabled(s, ReadSome(w, chunk, More))
    ensures var s1 := Apply(s, ReadSome(w, chunk, More));
            && Enabled(s1, TakeChunk(w))
            && var s2 := Apply(s1, TakeChunk(w));
               && Enabled(s2, WriteAll) && Enabled(s2, WriteFails(0))
               && Apply(s2, WriteAll)
                  == State(s.flows[w := Flow(s.flows[w].read + chunk, s.flows[w].written + chunk, Reading)], Selecting)
  {
    var s2 := Apply(Apply(s, ReadSome(w, chunk, More)), TakeChunk(w));
    var f := s.flows[w];
    assert Apply(s2, WriteAll).flows == s.flows[w := Flow(f.read + chunk, f.written + chunk, Reading)];
  }

  lemma ErrorEndsIt(s: State, w: Way, eof: bool)
    requires |s.flows| == 2 && s.loop == Selecting && s.flows[w].reader == Reading
    ensures Enabled(s, ReadFails(w, eof))
    ensures var s1 := Apply(s, ReadFails(w, eof));
            && Enabled(s1, TakeError(w))
            && Apply(s1, TakeError(w)).loop == ReadEnded(w)
            && Apply(s1, TakeError(w)).flows == s.flows[w := s.flows[w].(reader := Stopped)]
  {
  }

  /** Once the loop has ended nothing more is written either way. */
  lemma {:induction false} EndIsFinal(states: seq<State>, steps: seq<Step>, j: nat, k: nat, w: Way)
    requires IsRun(states, steps) && j <= k < |states| && (states[j].loop.ReadEnded? || states[j].loop.WriteEnded?)
    ensures |states[j].flows| == |states[k].flows| == 2
    ensures states[k].loop == states[j].loop && states[k].flows[w].written == states[j].flows[w].written
    decreases k
  {
    RunInv(states, steps, j);
    if j < k { EndIsFinal(states, steps, j, k - 1, w); }
  }

  /** In every state of every schedule: what was written one way is a prefix of what was read that
      way; apart from the one chunk the loop has in hand, at most one buffer has been read and not
      handed to the writer; and if the loop ended because reading one way failed, everything read
      that way has been written, and the other way lacks at most one buffer. What was read is what
      the steps yielded, and the loop ends on a read error only of a way whose reading failed. */
  lemma ForwardSafety(states: seq<State>, steps: seq<Step>, k: nat, w: Way)
    requires IsRun(states, steps) && k < |states|
    ensures |states[k].flows| == 2
    ensures var s, f := states[k], states[k].flows[w];
            && f.written <= f.read
            && |f.read| <= |f.written| + |Taken(s, w)| + BUFFER_SIZE
            && (s.loop == ReadEnded(w) ==> f.written == f.read)
            && (s.loop.ReadEnded? ==> |f.read| - |f.written| <= BUFFER_SIZE)
            && f.read == ReadOn(steps[..k], w)
            && (s.loop == ReadEnded(w) ==> FailedOn(steps[..k], w))
  {
    RunOrigins(states, steps, k, w);
    hide IsRun, ReadOn, FailedOn;
    RunInv(states, steps, k);
  }
}
