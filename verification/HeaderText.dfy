/** What the v1 parser makes of a header line, whoever wrote it: the older forms with five or six
    fields, extra fields, and the lines it refuses. The lines are described by their fields alone. */
module HeaderText {
  import opened Text
  import opened Numerals
  import opened Addrs
  import opened Header
  import opened ParserModel

  /** The text is these fields, separated by commas, perhaps with white space around them. */
  predicate Holds(text: bytes, fields: seq<bytes>, lead: bytes, trail: bytes) {
    && fields != [] && (forall n :: 0 <= n < |fields| ==> COMMA !in fields[n])
    && LeadingSpace(fields[0]) == 0 && TrailingSpace(fields[|fields| - 1]) == 0
    && IsBlank(lead) && IsBlank(trail) && text == lead + Join(fields, COMMA) + trail
  }

  lemma {:induction false} SplitOfJoin(fields: seq<bytes>)
    requires fields != [] && forall n :: 0 <= n < |fields| ==> COMMA !in fields[n]
    ensures Split(Join(fields, COMMA), COMMA) == fields
  {
    if |fields| == 1 {
      SplitLast(fields[0], COMMA);
    } else {
      SplitOfJoin(fields[1..]);
      SplitField(fields[0], Join(fields[1..], COMMA), COMMA);
    }
  }

  lemma NoCommaInRune(r: bytes)
    ensures COMMA in r ==> !IsSpaceRune(r)
  {
  }

  lemma SuffixAfterComma(a: bytes, rest: bytes, n: nat)
    requires n <= |a + [COMMA] + rest|
    ensures var s := a + [COMMA] + rest;
            if n <= |rest| then s[|s| - n..] == rest[|rest| - n..] else COMMA in s[|s| - n..]
  {
    var s := a + [COMMA] + rest;
    if n > |rest| { assert s[|s| - n..][n - 1 - |rest|] == COMMA; }
  }

  lemma TrailingSpaceAfterComma(a: bytes, rest: bytes)
    ensures TrailingSpace(a + [COMMA] + rest) == TrailingSpace(rest)
  {
    SuffixIsRune(a, rest, 1);
    SuffixIsRune(a, rest, 2);
    SuffixIsRune(a, rest, 3);
    hide IsSpaceRune;
  }

  lemma SuffixIsRune(a: bytes, rest: bytes, n: nat)
    ensures var s := a + [COMMA] + rest;
            (n <= |s| && IsSpaceRune(s[|s| - n..])) <==> (n <= |rest| && IsSpaceRune(rest[|rest| - n..]))
  {
    hide IsSpaceRune;
    var s := a + [COMMA] + rest;
    if n <= |s| {
      SuffixAfterComma(a, rest, n);
      NoCommaInRune(s[|s| - n..]);
    }
  }

  lemma {:induction false} JoinIsTight(fields: seq<bytes>)
    requires fields != [] && LeadingSpace(fields[0]) == 0 && TrailingSpace(fields[|fields| - 1]) == 0
    ensures LeadingSpace(Join(fields, COMMA)) == 0 && TrailingSpace(Join(fields, COMMA)) == 0
  {
    hide LeadingSpace, TrailingSpace;
    if |fields| > 1 {
      LeadingSpaceBeforeComma(fields[0], Join(fields[1..], COMMA));
      TrailingSpaceAfterComma(fields[0], Join(fields[1..], COMMA));
      JoinEnds(fields[1..]);
    }
  }

  lemma {:induction false} JoinEnds(fields: seq<bytes>)
    requires fields != [] && TrailingSpace(fields[|fields| - 1]) == 0
    ensures TrailingSpace(Join(fields, COMMA)) == 0
  {
    hide TrailingSpace;
    if |fields| > 1 {
      TrailingSpaceAfterComma(fields[0], Join(fields[1..], COMMA));
      JoinEnds(fields[1..]);
    }
  }

  lemma FieldsAreParts(text: bytes, fields: seq<bytes>, lead: bytes, trail: bytes)
    requires Holds(text, fields, lead, trail)
    ensures Split(TrimSpace(text), COMMA) == fields
  {
    hide TrimSpace, Split, LeadingSpace, TrailingSpace, IsBlank;
    JoinIsTight(fields);
    TrimExact(lead, Join(fields, COMMA), trail);
    SplitOfJoin(fields);
  }

  /** The source a line names: family, address and port. */
  function SourceIn(fields: seq<bytes>): Addr
    requires |fields| >= 5
  { Addr(fields[0], [], [], fields[1], Meant(fields[2])) }

  /** The destination: scheme, and, if they are there, port and address. */
  function DestinationIn(fields: seq<bytes>): Addr
    requires |fields| >= 5
  {
    Addr([], fields[4], [],
         if |fields| >= 7 then fields[6] else [],
         if |fields| >= 6 then Meant(fields[5]) else 0)
  }

  /** Why a line is refused, if it is. */
  function Refusal(fields: seq<bytes>): Error {
    if |fields| < 5 then BadHeader
    else if !IsNumeral(fields[3]) then BadPayloadLength
    else if fields[4] == CONTROL then NotImplemented
    else NoError
  }

  /** When the last byte of a header line has come, the parser has the line's own addresses and payload
      length and waits for the payload, or returns the error; the text is forgotten; and an "end" is
      routed at once, anything else not yet. The line may have come in any number of pieces. */
  lemma HeaderPassOfFields(m: Machine, b: bytes, k: nat, fields: seq<bytes>, lead: bytes, trail: bytes)
    requires m.phase == HeaderState && k <= |b| && |m.state.header| + k == m.state.headerLen
    requires Holds(m.state.header + b[..k], fields, lead, trail)
    ensures var p := HeaderPass(m, b);
            && p.rest == b[k..] && p.m.state.header == []
            && (Refusal(fields) != NoError ==>
                  p.Stop? && p.error == Refusal(fields) && p.routed == [] && p.m.phase == HeaderState)
            && (Refusal(fields) == NoError ==>
                  && p.Continue? && p.m.phase == PayloadState
                  && p.m.state == m.state.(header := [], srcAddr := SourceIn(fields), dstAddr := DestinationIn(fields),
                                           payloadLen := Meant(fields[3]))
                  && p.routed == if fields[4] != END then []
                                 else [Route(SourceIn(fields), DestinationIn(fields), [], 0)])
  {
    hide Split, TrimSpace, Atoi, Meant, IsNumeral;
    FieldsAreParts(m.state.header + b[..k], fields, lead, trail);
    forall s: bytes { AtoiExact(s); }
  }

  /** A header as it is written, byte by byte: 254, the length of the line, and the line. */
  lemma HeaderBytes(n: nat, id: Addr, tun: Addr)
    ensures var tail := tun.scheme + [44] + (Itoa(tun.port) + [44] + (tun.addr + [44]));
            var line := id.family + [44] + (id.addr + [44] + (Itoa(id.port) + [44] + (Itoa(n) + [44] + tail))) + [10];
            EncodeHeader(n, id, tun) == [254, |line| % 256] + line
  {
    hide Itoa, Line;
    Line3(tun.scheme, Itoa(tun.port), tun.addr);
    Line7(id.family, id.addr, Itoa(id.port), Itoa(n), tun.scheme, Itoa(tun.port), tun.addr);
  }

  lemma Line3(e: bytes, f: bytes, g: bytes)
    ensures Line([e, f, g]) == e + [44] + (f + [44] + (g + [44]))
  {
    hide Line;
    assert [e, f, g][1..] == [f, g] && [f, g][1..] == [g] && [g][1..] == [];
    LineUnfold([e, f, g]);
    LineUnfold([f, g]);
    LineUnfold([g]);
    NoFields();
    assert g + [44] + [] == g + [44];
  }

  lemma Line7(a: bytes, b: bytes, c: bytes, d: bytes, e: bytes, f: bytes, g: bytes)
    ensures Line([a, b, c, d, e, f, g]) == a + [44] + (b + [44] + (c + [44] + (d + [44] + Line([e, f, g]))))
  {
    hide Line;
    assert [a, b, c, d, e, f, g][1..] == [b, c, d, e, f, g] && [b, c, d, e, f, g][1..] == [c, d, e, f, g];
    assert [c, d, e, f, g][1..] == [d, e, f, g] && [d, e, f, g][1..] == [e, f, g];
    LineUnfold([a, b, c, d, e, f, g]);
    LineUnfold([b, c, d, e, f, g]);
    LineUnfold([c, d, e, f, g]);
    LineUnfold([d, e, f, g]);
  }

  lemma NoFields()
    ensures Line([]) == []
  {
  }
}
