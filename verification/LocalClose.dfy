/** What comes through to a key's pipe, and what is lost, once its other end may be closed: the
    listener of internal/telebit/listener.go keeps a pipe in its map until an "end" or "error" event
    takes it out, whether or not anybody still reads it. */
module LocalClose {
  import opened Text
  import opened Addrs
  import opened ParserModel
  import opened Demux

  /** Since the key last came to life, its pipe has been closed from the other end, perhaps in the
      middle of a payload. */
  predicate Dropped(hs: seq<Happening>, key: bytes) {
    hs != [] &&
    var front, h := hs[..|hs| - 1], hs[|hs| - 1];
    match h
    case Routed(r, got) =>
      if Key(r) != key then Dropped(front, key)
      else (Live(TraceOf(front), key) && Dropped(front, key)) || (r.dst.scheme != ERROR && got < |r.payload|)
    case ClosedLocally(i) =>
      Dropped(front, key) || (Live(TraceOf(front), key) && i == FindOpen(Sessions(TraceOf(front)), key))
  }

  lemma RoutedUnfold(hs: seq<Happening>, r: Route, got: nat)
    ensures var ss, all := Sessions(TraceOf(hs)), hs + [Routed(r, got)];
            && TraceOf(all) == TraceOf(hs) + [r]
            && Sessions(TraceOf(all)) == Deliver(ss, r)
            && Ends(all) == TakeAt(Ends(hs), FindOpen(ss, Key(r)), r, got)
  {
    hide FindOpen, Key, Deliver, TakeAt, Sessions;
    assert (hs + [Routed(r, got)])[..|hs|] == hs;
    SessionsSnoc(TraceOf(hs), r);
  }

  lemma {:induction false} EndsOfSessions(hs: seq<Happening>)
    ensures |Ends(hs)| == |Sessions(TraceOf(hs))|
    decreases |hs|
  {
    if hs != [] {
      hide FindOpen, Key, Deliver, Sessions, Ends, TraceOf;
      var front, h := hs[..|hs| - 1], hs[|hs| - 1];
      assert hs == front + [h];
      EndsOfSessions(front);
      match h
      case Routed(r, got) =>
        RoutedUnfold(front, r, got);
        DeliverShape(Sessions(TraceOf(front)), r);
      case ClosedLocally(i) => EndsClosed(front, i);
    }
  }

  /** The other end of a live key's pipe is gone exactly when it was dropped since the key came to
      life; and unless it was, all that was routed to the key since then has come through. */
  lemma {:induction false} GoneExact(hs: seq<Happening>, key: bytes)
    requires Live(TraceOf(hs), key)
    ensures var k := FindOpen(Sessions(TraceOf(hs)), key);
            && k < |Ends(hs)| == |Sessions(TraceOf(hs))|
            && (Ends(hs)[k].gone <==> Dropped(hs, key))
            && (!Dropped(hs, key) ==> Ends(hs)[k].written == Since(TraceOf(hs), key))
            && Ends(hs)[k].written <= Since(TraceOf(hs), key)
    decreases |hs|, 0
  {
    var front, h := hs[..|hs| - 1], hs[|hs| - 1];
    assert hs == front + [h];
    match h
    case Routed(r, got) => GoneRouted(front, r, got, key);
    case ClosedLocally(i) =>
      GoneExact(front, key);
      EndsClosed(front, i);
  }

  lemma {:induction false} GoneRouted(hs: seq<Happening>, r: Route, got: nat, key: bytes)
    requires Live(TraceOf(hs + [Routed(r, got)]), key)
    ensures var all := hs + [Routed(r, got)];
            var k := FindOpen(Sessions(TraceOf(all)), key);
            && k < |Ends(all)| == |Sessions(TraceOf(all))|
            && (Ends(all)[k].gone <==> Dropped(all, key))
            && (!Dropped(all, key) ==> Ends(all)[k].written == Since(TraceOf(all), key))
            && Ends(all)[k].written <= Since(TraceOf(all), key)
    decreases |hs|, 1
  {
    hide FindOpen, Key, Deliver, Sessions, Ends, TraceOf, Take, KeyCount, KeyData;
    var all, ss := hs + [Routed(r, got)], Sessions(TraceOf(hs));
    assert all[..|all| - 1] == hs;
    assert (TraceOf(hs) + [r])[..|TraceOf(hs)|] == TraceOf(hs);
    RoutedUnfold(hs, r, got);
    EndsOfSessions(all);
    EndsOfSessions(hs);
    DemuxExact(TraceOf(hs), key);
    DeliverFinds(ss, r, key);
    FindSpec(ss, key);
    FindSpec(ss, Key(r));
    if Live(TraceOf(hs), key) {
      GoneExact(hs, key);
      var e := Ends(hs)[FindOpen(ss, key)];
      if Key(r) == key { TakePrefix(e, Since(TraceOf(hs), key), r, got); }
    } else {
      TakePrefix(End([], false), [], r, got);
    }
  }

  lemma TakePrefix(e: End, since: bytes, r: Route, got: nat)
    requires r.dst.scheme != ERROR && e.written <= since && (!e.gone ==> e.written == since)
    ensures var t := Take(e, r, got);
            && (t.gone <==> e.gone || got < |r.payload|)
            && t.written <= since + r.payload
            && (!t.gone ==> t.written == since + r.payload)
  {
    if !e.gone && got < |r.payload| {
      assert r.payload == r.payload[..got] + r.payload[got..];
      assert since + r.payload == since + r.payload[..got] + r.payload[got..];
    }
  }

  /** The pipe that an event finds or creates, seen from its other end. */
  function Target(hs: seq<Happening>, r: Route): End {
    var k := FindOpen(Sessions(TraceOf(hs)), Key(r));
    if k < |Ends(hs)| then Ends(hs)[k] else End([], false)
  }

  /** The payload of an event, were it not cut short, would arrive at the other end of that pipe. */
  predicate ComesThrough(hs: seq<Happening>, r: Route) {
    var k, es := FindOpen(Sessions(TraceOf(hs)), Key(r)), Ends(hs + [Routed(r, |r.payload|)]);
    k < |es| && es[k].written == Target(hs, r).written + r.payload
  }

  /** In every history, the bytes of an event come through exactly when the event creates the pipe or
      finds one that has not been dropped. */
  lemma ComesThroughExact(hs: seq<Happening>, r: Route)
    requires r.payload != [] && r.dst.scheme != ERROR
    ensures ComesThrough(hs, r) <==> !Live(TraceOf(hs), Key(r)) || !Dropped(hs, Key(r))
  {
    hide FindOpen, Key, Deliver, Sessions, Ends, TraceOf, Dropped, Live, Since, KeyCount, KeyData, Openings, DataFor;
    RoutedUnfold(hs, r, |r.payload|);
    EndsOfSessions(hs);
    DemuxExact(TraceOf(hs), Key(r));
    if Live(TraceOf(hs), Key(r)) { GoneExact(hs, Key(r)); }
  }

  /** The same of the listener's own map and pipes. */
  lemma ConnsAreDropped(l: Listener, key: bytes)
    requires l.Valid() && key in l.conns
    ensures l.conns[key].gone <==> Dropped(l.history, key)
    ensures !Dropped(l.history, key) ==> l.conns[key].written == Since(l.trace, key)
  {
    hide FindOpen, OpenMap, Live, Since, Sessions, KeyCount, KeyData, Openings, LatestOpen, Addr.String;
    hide Dropped, TraceOf, Ends;
    l.ConnsAreLive(key);
    OpenMapSpec(Sessions(l.trace), key);
    GoneExact(l.history, key);
    assert l.conns[key].Far() == Ends(l.history)[FindOpen(Sessions(l.trace), key)];
  }

  /** A pipe that was dropped stays so until its key comes to life again. */
  lemma {:induction false} StaysDropped(hs: seq<Happening>, mid: seq<Happening>, key: bytes)
    requires Dropped(hs, key)
    ensures Openings(TraceOf(hs), key) <= Openings(TraceOf(hs + mid), key)
    ensures Openings(TraceOf(hs + mid), key) == Openings(TraceOf(hs), key) && Live(TraceOf(hs + mid), key) ==>
              Dropped(hs + mid, key) && Live(TraceOf(hs), key)
    decreases |mid|
  {
    if mid == [] {
      assert hs + mid == hs;
    } else {
      hide Key, FindOpen, Sessions, Dropped, Live, Openings, TraceOf;
      var front, h := mid[..|mid| - 1], mid[|mid| - 1];
      assert hs + mid == (hs + front) + [h];
      StaysDropped(hs, front, key);
      OneMore(hs + front, h, key);
    }
  }

  lemma OneMore(hs: seq<Happening>, h: Happening, key: bytes)
    ensures var t, t' := TraceOf(hs), TraceOf(hs + [h]);
            && Openings(t, key) <= Openings(t', key)
            && (Openings(t', key) == Openings(t, key) && Live(t', key) ==>
                  Live(t, key) && (Dropped(hs, key) ==> Dropped(hs + [h], key)))
  {
    hide Key, FindOpen, Sessions;
    assert (hs + [h])[..|hs|] == hs;
    if h.Routed? { assert (TraceOf(hs) + [h.r])[..|TraceOf(hs)|] == TraceOf(hs); }
  }

  /** After the other end of a live key's pipe has been closed, and until the key comes to life again,
      an event of the key comes through exactly when the key is not live: when an "end" or "error"
      has taken the closed pipe out of the map. */
  lemma AfterLocalClose(hs: seq<Happening>, mid: seq<Happening>, r: Route)
    requires r.payload != [] && r.dst.scheme != ERROR && Live(TraceOf(hs), Key(r))
    ensures var before := TraceOf(hs);
            var all := hs + [ClosedLocally(FindOpen(Sessions(before), Key(r)))] + mid;
            Openings(TraceOf(all), Key(r)) == Openings(before, Key(r)) ==>
              (ComesThrough(all, r) <==> !Live(TraceOf(all), Key(r)))
  {
    hide Key, FindOpen, Sessions, Ends, Live, Openings, ComesThrough;
    var i := FindOpen(Sessions(TraceOf(hs)), Key(r));
    var base := hs + [ClosedLocally(i)];
    EndsClosed(hs, i);
    assert base[..|hs|] == hs;
    assert Dropped(base, Key(r));
    StaysDropped(base, mid, Key(r));
    ComesThroughExact(base + mid, r);
  }

  lemma FirstSession(r: Route)
    ensures Deliver([], r) == [Session(Key(r), Lands(r), !Closing(r))]
  {
    hide Key, Lands, Closing;
    var grown := Opened([], Key(r));
    assert grown == [Session(Key(r), [], true)];
    assert [] + Lands(r) == Lands(r);
  }

  /** Both at a trace: two connections of one client, the first closed at this end. The second is lost
      if the client's "end" is still missing, and comes through if it is there. */
  lemma SecondConnection(src: Addr, dst: Addr, end: Addr, b: bytes, c: bytes)
    requires dst.scheme != END && dst.scheme != ERROR && end.scheme == END && c != []
    ensures var first, last, second := Route(src, dst, b, 0), Route(src, end, [], 0), Route(src, dst, c, 0);
            var hs := [Routed(first, |b|), ClosedLocally(0)];
            !ComesThrough(hs, second) && ComesThrough(hs + [Routed(last, 0)], second)
  {
    hide Addr.String, ComesThrough;
    var first, last, second := Route(src, dst, b, 0), Route(src, end, [], 0), Route(src, dst, c, 0);
    var h1 := [] + [Routed(first, |b|)];
    var hs := h1 + [ClosedLocally(0)];
    RoutedUnfold([], first, |b|);
    EndsClosed(h1, 0);
    RoutedUnfold(hs, last, 0);
    FirstSession(first);
    AtThatTrace(first, last, h1, hs, second);
    ComesThroughExact(hs, second);
    ComesThroughExact(hs + [Routed(last, 0)], second);
    assert hs == [Routed(first, |b|), ClosedLocally(0)];
  }

  lemma AtThatTrace(first: Route, last: Route, h1: seq<Happening>, hs: seq<Happening>, second: Route)
    requires Key(first) == Key(last) == Key(second) && !Closing(first) && Closing(last)
    requires TraceOf(h1) == [first] && Sessions([first]) == [Session(Key(first), Lands(first), true)]
    requires hs == h1 + [ClosedLocally(0)]
    ensures Live([first], Key(second)) && Dropped(hs, Key(second)) && !Live([first] + [last], Key(second))
  {
    hide Key, Closing, TraceOf, Sessions;
    assert hs[..1 + |h1| - 1] == h1 && ([first] + [last])[..1] == [first];
    FindSpec(Sessions([first]), Key(second));
    assert Sessions([first])[0].open;
  }
}
