/** Where the frames on the tunnel come from: what a client's connection yielded, read off the steps
    of a run, against what its loop has written. */
module Origins {
  import opened Text
  import opened ParserModel
  import opened Frames
  import opened Readers
  import opened Multiplex

  // ---------- read off the steps ----------

  /** What the connection of client i has yielded. */
  function ReadBy(steps: seq<Step>, i: nat): bytes {
    if steps == [] then []
    else
      var front := ReadBy(steps[..|steps| - 1], i);
      match steps[|steps| - 1]
      case ReadSome(j, chunk, _) => if j == i then front + chunk else front
      case _ => front
  }

  /** Its latest chunk. */
  function LastRead(steps: seq<Step>, i: nat): bytes {
    if steps == [] then []
    else match steps[|steps| - 1]
      case ReadSome(j, chunk, _) => if j == i then chunk else LastRead(steps[..|steps| - 1], i)
      case _ => LastRead(steps[..|steps| - 1], i)
  }

  /** How reading it has ended. */
  datatype Ending = NotEnded | Ended(eof: bool)

  function EndingOf(steps: seq<Step>, i: nat): Ending {
    if steps == [] then NotEnded
    else
      var front := EndingOf(steps[..|steps| - 1], i);
      match steps[|steps| - 1]
      case ReadSome(j, _, Fails(eof)) => if j == i then Ended(eof) else front
      case ReadFails(j, eof) => if j == i then Ended(eof) else front
      case _ => front
  }

  /** What its select loop has received: chunks, then a closing frame's worth. */
  function Received(steps: seq<Step>, i: nat): seq<Body> {
    if steps == [] then []
    else
      var before := steps[..|steps| - 1];
      var front := Received(before, i);
      match steps[|steps| - 1]
      case TakeChunk(j) => if j == i then front + [Data(LastRead(before, i))] else front
      case TakeError(j) => if j == i then front + [Close(EndingOf(before, i) == Ended(true))] else front
      case _ => front
  }

  /** The client's frames on the wire. */
  function FramesOf(wire: seq<Sent>, i: nat): seq<Body> {
    if wire == [] then []
    else
      var last := wire[|wire| - 1];
      FramesOf(wire[..|wire| - 1], i) + if last.who == i then [last.body] else []
  }

  lemma FramesSnoc(wire: seq<Sent>, e: Sent, i: nat)
    ensures FramesOf(wire + [e], i) == FramesOf(wire, i) + if e.who == i then [e.body] else []
  {
    assert (wire + [e])[..|wire|] == wire;
  }

  lemma {:induction false} FramesAreOnWire(wire: seq<Sent>, i: nat, body: Body)
    ensures body in FramesOf(wire, i) <==> Sent(i, body) in wire
    decreases |wire|
  {
    if wire != [] {
      var front, last := wire[..|wire| - 1], wire[|wire| - 1];
      assert wire == front + [last];
      FramesAreOnWire(front, i, body);
    }
  }

  /** Ended means that some read of the client ended so. */
  lemma {:induction false} EndingIsARead(steps: seq<Step>, i: nat) returns (j: nat)
    requires EndingOf(steps, i).Ended?
    ensures j < |steps|
    ensures var eof := EndingOf(steps, i).eof;
            steps[j] == ReadFails(i, eof)
            || (steps[j].ReadSome? && steps[j].i == i && steps[j].next == Fails(eof))
    decreases |steps|
  {
    j := |steps| - 1;
    var ends := match steps[j] case ReadSome(n, _, Fails(_)) => n == i case ReadFails(n, _) => n == i case _ => false;
    if !ends { j := EndingIsARead(steps[..j], i); }
  }

  // ---------- the machine keeps to it ----------

  predicate ReaderInv(c: Client, steps: seq<Step>, i: nat) {
    match c.reader
    case Reading => EndingOf(steps, i) == NotEnded
    case Offering(chunk, next) =>
      && chunk == LastRead(steps, i)
      && EndingOf(steps, i) == match next { case More => NotEnded case Fails(eof) => Ended(eof) }
    case Failing(eof) => EndingOf(steps, i) == Ended(eof)
    case Stopped => true
  }

  /** All that was received has been written, but for the frame in hand. */
  predicate SenderInv(c: Client, frames: seq<Body>, received: seq<Body>) {
    match c.sender
    case Writing(body) => received == frames + [body]
    case Failed(body) => received == frames + [body]
    case _ => received == frames
  }

  predicate ClosesRight(received: seq<Body>, ending: Ending) {
    forall n :: 0 <= n < |received| && received[n].Close? ==> ending == Ended(received[n].eof)
  }

  predicate OriginInv(c: Client, wire: seq<Sent>, steps: seq<Step>, i: nat) {
    && c.read == ReadBy(steps, i)
    && ReaderInv(c, steps, i)
    && SenderInv(c, FramesOf(wire, i), Received(steps, i))
    && ClosesRight(Received(steps, i), EndingOf(steps, i))
  }

  lemma OneMoreStep(steps: seq<Step>, step: Step, i: nat)
    ensures var all := steps + [step];
            && ReadBy(all, i) == ReadBy(steps, i) + (if step.ReadSome? && step.i == i then step.chunk else [])
            && LastRead(all, i) == (if step.ReadSome? && step.i == i then step.chunk else LastRead(steps, i))
            && EndingOf(all, i) == (if step.ReadSome? && step.i == i && step.next.Fails? then Ended(step.next.eof)
                                    else if step.ReadFails? && step.i == i then Ended(step.eof)
                                    else EndingOf(steps, i))
            && Received(all, i) == Received(steps, i)
                 + (if step == TakeChunk(i) then [Data(LastRead(steps, i))]
                    else if step == TakeError(i) then [Close(EndingOf(steps, i) == Ended(true))] else [])
  {
    assert (steps + [step])[..|steps|] == steps;
  }

  lemma OriginStep(cfg: seq<Peer>, s: State, step: Step, steps: seq<Step>, i: nat)
    requires Enabled(cfg, s, step) && i < |s.clients| && OriginInv(s.clients[i], s.wire, steps, i)
    ensures |Apply(cfg, s, step).clients| == |s.clients|
    ensures OriginInv(Apply(cfg, s, step).clients[i], Apply(cfg, s, step).wire, steps + [step], i)
  {
    hide WireOk, WireBytes, WriteOutcome, FramesOf, ReadBy, LastRead, EndingOf, Received;
    OneMoreStep(steps, step, i);
    if step.WriteFrame? { FramesSnoc(s.wire, Sent(step.i, s.clients[step.i].sender.body), i); }
  }

  lemma {:induction false} RunOrigins(cfg: seq<Peer>, states: seq<State>, steps: seq<Step>, k: nat, i: nat)
    requires IsRun(cfg, states, steps) && k < |states| && i < |cfg|
    ensures |states[k].clients| == |cfg|
    ensures OriginInv(states[k].clients[i], states[k].wire, steps[..k], i)
  {
    hide OriginInv, Enabled, Apply;
    if k == 0 {
      NothingOriginal(cfg, i);
      assert steps[..0] == [];
    } else {
      RunOrigins(cfg, states, steps, k - 1, i);
      OriginStep(cfg, states[k - 1], steps[k - 1], steps[..k - 1], i);
      assert steps[..k] == steps[..k - 1] + [steps[k - 1]];
    }
  }

  lemma NothingOriginal(cfg: seq<Peer>, i: nat)
    requires i < |cfg|
    ensures OriginInv(Init(cfg).clients[i], Init(cfg).wire, [], i)
  {
  }

  /** In every run: a client has read what its connection yielded; the frames it has written are, in
      order, those its select loop received, all of them but for one that is in hand or could not be
      written; and a closing frame says how reading ended. */
  lemma FramesHaveOrigins(cfg: seq<Peer>, states: seq<State>, steps: seq<Step>, k: nat, i: nat)
    requires IsRun(cfg, states, steps) && k < |states| && i < |cfg|
    ensures |states[k].clients| == |cfg|
    ensures states[k].clients[i].read == ReadBy(steps[..k], i)
    ensures var frames, received := FramesOf(states[k].wire, i), Received(steps[..k], i);
            && frames <= received && |received| <= |frames| + 1
            && (states[k].clients[i].sender in {Selecting, Returned} ==> frames == received)
    ensures forall eof :: Sent(i, Close(eof)) in states[k].wire ==> EndingOf(steps[..k], i) == Ended(eof)
  {
    hide FramesOf, Received, ReadBy, EndingOf, ReaderInv;
    RunOrigins(cfg, states, steps, k, i);
    forall eof | Sent(i, Close(eof)) in states[k].wire
      ensures EndingOf(steps[..k], i) == Ended(eof)
    {
      FramesAreOnWire(states[k].wire, i, Close(eof));
      var frames := FramesOf(states[k].wire, i);
      var n :| 0 <= n < |frames| && frames[n] == Close(eof);
      assert Received(steps[..k], i)[n] == Close(eof);
    }
  }

  /** A loop that was cancelled, or whose write failed, writes nothing more. */
  lemma {:induction false} NothingAfterCancel(
      cfg: seq<Peer>, states: seq<State>, steps: seq<Step>, j: nat, k: nat, i: nat)
    requires IsRun(cfg, states, steps) && j < k < |states| && i < |cfg|
    requires steps[j] == Cancel(i) || steps[j] == WriteFails(i)
    ensures |states[k].clients| == |cfg|
    ensures states[k].clients[i].sender == Returned || states[k].clients[i].sender.Failed?
    ensures FramesOf(states[k].wire, i) == FramesOf(states[j].wire, i)
    decreases k
  {
    hide WireOk, WireBytes, WriteOutcome, FramesOf;
    RunOrigins(cfg, states, steps, k, i);
    RunOrigins(cfg, states, steps, k - 1, i);
    var s := states[k - 1];
    if j < k - 1 { NothingAfterCancel(cfg, states, steps, j, k - 1, i); }
    if steps[k - 1].WriteFrame? {
      FramesSnoc(s.wire, Sent(steps[k - 1].i, s.clients[steps[k - 1].i].sender.body), i);
    }
  }

  // ---------- nothing holds a client up ----------

  /** A client whose loop is idle: any chunk it reads can be on the tunnel three steps later. */
  lemma ChunkGetsThrough(cfg: seq<Peer>, s: State, i: nat, chunk: bytes) returns (t: State)
    requires WireOk(cfg, s.wire) && |s.clients| == |cfg| && i < |cfg|
    requires s.clients[i].reader == Reading && s.clients[i].sender == Selecting && 0 < |chunk| <= BUFFER_SIZE
    ensures Enabled(cfg, s, ReadSome(i, chunk, More))
    ensures var s1 := Apply(cfg, s, ReadSome(i, chunk, More));
            && Enabled(cfg, s1, TakeChunk(i))
            && var s2 := Apply(cfg, s1, TakeChunk(i));
               Enabled(cfg, s2, WriteFrame(i)) && t == Apply(cfg, s2, WriteFrame(i))
    ensures t == s.(clients := s.clients[i := Client(s.clients[i].read + chunk, Reading, Selecting)],
                    wire := s.wire + [Sent(i, Data(chunk))])
  {
    var s1 := Apply(cfg, s, ReadSome(i, chunk, More));
    var s2 := Apply(cfg, s1, TakeChunk(i));
    t := Apply(cfg, s2, WriteFrame(i));
    assert t.clients == s.clients[i := Client(s.clients[i].read + chunk, Reading, Selecting)];
  }

  /** ... and so can the closing frame for the way in which reading ended, after which the loop is gone. */
  lemma CloseGetsThrough(cfg: seq<Peer>, s: State, i: nat, eof: bool) returns (t: State)
    requires WireOk(cfg, s.wire) && |s.clients| == |cfg| && i < |cfg|
    requires s.clients[i].reader == Reading && s.clients[i].sender == Selecting
    ensures Enabled(cfg, s, ReadFails(i, eof))
    ensures var s1 := Apply(cfg, s, ReadFails(i, eof));
            && Enabled(cfg, s1, TakeError(i))
            && var s2 := Apply(cfg, s1, TakeError(i));
               Enabled(cfg, s2, WriteFrame(i)) && t == Apply(cfg, s2, WriteFrame(i))
    ensures t == s.(clients := s.clients[i := Client(s.clients[i].read, Stopped, Returned)],
                    wire := s.wire + [Sent(i, Close(eof))])
  {
    var s1 := Apply(cfg, s, ReadFails(i, eof));
    var s2 := Apply(cfg, s1, TakeError(i));
    t := Apply(cfg, s2, WriteFrame(i));
    assert t.clients == s.clients[i := Client(s.clients[i].read, Stopped, Returned)];
  }

  /** A waiting loop can be cancelled, and any write can fail; then it is gone, and the wire as it was. */
  lemma LoopCanEnd(cfg: seq<Peer>, s: State, i: nat)
    requires WireOk(cfg, s.wire) && i < |s.clients|
    ensures s.clients[i].sender == Selecting ==>
              && Enabled(cfg, s, Cancel(i)) && Apply(cfg, s, Cancel(i)).wire == s.wire
              && Apply(cfg, s, Cancel(i)).clients[i].sender == Returned
    ensures s.clients[i].sender.Writing? ==>
              && Enabled(cfg, s, WriteFails(i)) && Apply(cfg, s, WriteFails(i)).wire == s.wire
              && Apply(cfg, s, WriteFails(i)).clients[i].sender == Failed(s.clients[i].sender.body)
  {
    hide WireOk;
  }

  /** A decoder with nothing on offer can take and parse any number of the next bytes. */
  lemma BytesGetThrough(cfg: seq<Peer>, s: State, n: nat) returns (t: State)
    requires WireOk(cfg, s.wire) && s.error == NoError && s.pos == s.taken
    requires 0 < n <= BUFFER_SIZE && s.pos + n <= |WireBytes(cfg, s.wire)|
    ensures Enabled(cfg, s, TunnelRead(n))
    ensures var s1 := Apply(cfg, s, TunnelRead(n)); Enabled(cfg, s1, ParseChunk) && t == Apply(cfg, s1, ParseChunk)
    ensures var o := WriteOutcome(s.m, WireBytes(cfg, s.wire)[s.pos..s.pos + n]);
            t == s.(taken := s.pos + n, pos := s.pos + n, m := o.m, routed := s.routed + o.routed, error := o.error)
  {
    hide WireBytes, WriteOutcome, WireOk;
    t := Apply(cfg, Apply(cfg, s, TunnelRead(n)), ParseChunk);
  }
}
