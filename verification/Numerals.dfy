/** What the string routines of Text.dfy mean, said without their loops: which texts are numbers, and
    what is white space. */
module Numerals {
  import opened Text

  // ---------- strconv.Atoi ----------

  predicate AllDigits(b: bytes) { forall c :: c in b ==> IsDigit(c) }

  /** The number that decimal digits stand for, most significant first. */
  function Decimal(b: bytes): nat
    requires AllDigits(b)
  {
    if b == [] then 0
    else
      var n := |b| - 1;
      assert forall c :: c in b[..n] ==> c in b;
      assert b[n] in b;
      10 * Decimal(b[..n]) + (b[n] - 48)
  }

  function Unsigned(s: bytes): bytes { if s != [] && (s[0] == PLUS || s[0] == MINUS) then s[1..] else s }

  function Signed(s: bytes, n: nat): int { if s != [] && s[0] == MINUS then -(n as int) else n }

  /** An optional sign and digits, together a 64-bit number. */
  predicate IsNumeral(s: bytes) {
    var b := Unsigned(s);
    b != [] && AllDigits(b) && IsInt64(Signed(s, Decimal(b)))
  }

  /** The first k bytes are digits and alone beyond 64 bits. */
  predicate TooLongAt(b: bytes, k: nat) { k <= |b| && AllDigits(b[..k]) && Decimal(b[..k]) > MAX_UINT64 }

  predicate BeginsTooLong(b: bytes) { exists k :: 0 <= k <= |b| && TooLongAt(b, k) }

  /** The first byte that is no digit, not too far on. */
  predicate BadAt(b: bytes, k: nat) {
    k < |b| && !IsDigit(b[k]) && AllDigits(b[..k]) && Decimal(b[..k]) <= MAX_UINT64
  }

  /** The number a text is taken for: its own, the nearest bound if it is out of range, else 0. */
  function Meant(s: bytes): int {
    var b := Unsigned(s);
    if IsNumeral(s) then Signed(s, Decimal(b))
    else if BeginsTooLong(b) || (b != [] && AllDigits(b)) then
      if s != [] && s[0] == MINUS then MIN_INT64 else MAX_INT64
    else 0
  }

  lemma DecimalSnoc(b: bytes, c: byte)
    requires AllDigits(b) && IsDigit(c)
    ensures AllDigits(b + [c]) && Decimal(b + [c]) == 10 * Decimal(b) + (c - 48)
  {
    assert (b + [c])[..|b|] == b;
  }

  lemma {:induction false} DecimalGrows(a: bytes, b: bytes)
    requires a <= b && AllDigits(b)
    ensures AllDigits(a) && Decimal(a) <= Decimal(b)
    decreases |b|
  {
    if |a| < |b| {
      var n := |b| - 1;
      assert forall c :: c in b[..n] ==> c in b;
      assert b[n] in b;
      DecimalGrows(a, b[..n]);
    } else {
      assert a == b;
    }
  }

  lemma {:induction false} ScanMeans(pre: bytes, s: bytes)
    requires AllDigits(pre) && Decimal(pre) <= MAX_UINT64
    ensures match ScanUint(Decimal(pre), s)
            case Value(n) => AllDigits(pre + s) && n == Decimal(pre + s) <= MAX_UINT64
            case Overflow => BeginsTooLong(pre + s)
            case Syntax => exists k: nat :: BadAt(pre + s, k)
    decreases |s|
  {
    hide AllDigits, Decimal;
    var all := pre + s;
    if s == [] {
      assert all == pre;
    } else if !IsDigit(s[0]) {
      assert all[|pre|] == s[0] && all[..|pre|] == pre;
      assert BadAt(all, |pre|);
    } else {
      DecimalSnoc(pre, s[0]);
      var next := pre + [s[0]];
      assert next + s[1..] == all && all[..|pre| + 1] == next;
      if Decimal(next) <= MAX_UINT64 { ScanMeans(next, s[1..]); } else { assert TooLongAt(all, |pre| + 1); }
    }
  }

  lemma TooLongIsNot(b: bytes, j: nat)
    requires TooLongAt(b, j)
    ensures AllDigits(b) ==> Decimal(b) > MAX_UINT64
    ensures forall k: nat :: !BadAt(b, k)
  {
    hide Decimal;
    if AllDigits(b) { DecimalGrows(b[..j], b); }
    assert forall k :: 0 <= k < j ==> b[..j][k] == b[k];
    if k: nat :| BadAt(b, k) {
      if j <= k { DecimalGrows(b[..j], b[..k]); }
    }
  }

  lemma LongDigits(b: bytes)
    ensures AllDigits(b) && Decimal(b) > MAX_UINT64 ==> BeginsTooLong(b)
  {
    hide AllDigits, Decimal;
    assert b[..|b|] == b;
    if AllDigits(b) && Decimal(b) > MAX_UINT64 { assert TooLongAt(b, |b|); }
  }

  lemma ScanIsExact(b: bytes)
    ensures ScanUint(0, b).Overflow? <==> BeginsTooLong(b)
    ensures ScanUint(0, b).Value? <==> AllDigits(b) && Decimal(b) <= MAX_UINT64
    ensures ScanUint(0, b).Value? ==> ScanUint(0, b).n == Decimal(b)
    ensures ScanUint(0, b).Syntax? ==> !AllDigits(b)
  {
    hide ScanUint, TooLongAt;
    ScanMeans([], b);
    assert [] + b == b;
    if j :| 0 <= j <= |b| && TooLongAt(b, j) { TooLongIsNot(b, j); }
    if k: nat :| BadAt(b, k) { assert b[k] in b; }
    LongDigits(b);
  }

  /** For every text: Atoi succeeds exactly on numerals, and its value is the number meant. */
  lemma AtoiExact(s: bytes)
    ensures Atoi(s) == Number(Meant(s), IsNumeral(s))
  {
    hide ScanUint, BeginsTooLong, AllDigits, Decimal;
    ScanIsExact(Unsigned(s));
    NoDigits();
    if s != [] { ScanIsExact(s[1..]); }
  }

  lemma NoDigits()
    ensures !BeginsTooLong([])
  {
  }

  // ---------- strings.TrimSpace ----------

  /** unicode.IsSpace. */
  predicate IsSpaceCode(c: nat) {
    || 9 <= c <= 13 || c == 0x20 || c == 0x85 || c == 0xA0 || c == 0x1680 || 0x2000 <= c <= 0x200A
    || c == 0x2028 || c == 0x2029 || c == 0x202F || c == 0x205F || c == 0x3000
  }

  /** Section 3 of RFC 3629, up to three bytes. */
  function Utf8(c: nat): bytes
    requires c < 0x10000
  {
    if c < 0x80 then [c]
    else if c < 0x800 then [0xC0 + c / 64, 0x80 + c % 64]
    else [0xE0 + c / 4096, 0x80 + c / 64 % 64, 0x80 + c % 64]
  }

  lemma SpaceCodeIsRune(c: nat)
    requires c < 0x10000 && IsSpaceCode(c)
    ensures IsSpaceRune(Utf8(c))
  {
    if 0x2000 <= c <= 0x200A {
      assert c / 4096 == 2 && c / 64 == 128 && c % 64 == c - 0x2000;
    }
  }

  lemma RuneIsSpaceCode(r: bytes) returns (c: nat)
    requires IsSpaceRune(r)
    ensures c < 0x10000 && IsSpaceCode(c) && r == Utf8(c)
  {
    if |r| == 1 {
      c := r[0];
    } else if |r| == 2 {
      c := r[1];
    } else {
      c := if r[0] == 0xE1 then 0x1680
           else if r[0] == 0xE3 then 0x3000
           else if r[1] == 0x81 then 0x205F
           else 0x2000 + (r[2] as int - 0x80);
      assert r[0] == 0xE2 && r[1] == 0x80 ==> c / 4096 == 2 && c / 64 == 128 && c % 64 == c - 0x2000;
    }
  }

  lemma SpaceRunes(r: bytes)
    ensures IsSpaceRune(r) <==> exists c :: 0 <= c < 0x10000 && IsSpaceCode(c) && r == Utf8(c)
  {
    hide IsSpaceCode, IsSpaceRune, Utf8;
    if IsSpaceRune(r) { var c := RuneIsSpaceCode(r); }
    if c :| 0 <= c < 0x10000 && IsSpaceCode(c) && r == Utf8(c) { SpaceCodeIsRune(c); }
  }

  /** White space and nothing else. */
  predicate IsBlank(s: bytes) {
    s == [] || exists w :: 1 <= w <= 3 && w <= |s| && IsSpaceRune(s[..w]) && IsBlank(s[w..])
  }

  lemma SpaceFirst(r: bytes, s: bytes)
    requires IsSpaceRune(r)
    ensures LeadingSpace(r + s) == |r| && TrimLeft(r + s) == TrimLeft(s)
  {
    var all := r + s;
    assert all[..|r|] == r && all[|r|..] == s;
    assert all[..1] == r[..1];
    assert |r| >= 2 ==> all[..2] == r[..2];
  }

  lemma SpaceLast(s: bytes, r: bytes)
    requires IsSpaceRune(r)
    ensures TrailingSpace(s + r) == |r| && TrimRight(s + r) == TrimRight(s)
  {
    var all := s + r;
    assert all[|s|..] == r && all[..|s|] == s;
    assert all[|all| - 1..] == r[|r| - 1..];
    assert |r| >= 2 ==> all[|all| - 2..] == r[|r| - 2..];
  }

  lemma {:induction false} BlankFirst(lead: bytes, s: bytes)
    requires IsBlank(lead)
    ensures TrimLeft(lead + s) == TrimLeft(s)
    decreases |lead|
  {
    hide IsSpaceRune, TrimLeft;
    if lead == [] {
      assert lead + s == s;
    } else {
      var w :| 1 <= w <= 3 && w <= |lead| && IsSpaceRune(lead[..w]) && IsBlank(lead[w..]);
      assert lead + s == lead[..w] + (lead[w..] + s);
      SpaceFirst(lead[..w], lead[w..] + s);
      BlankFirst(lead[w..], s);
    }
  }

  lemma {:induction false} BlankLast(s: bytes, trail: bytes)
    requires IsBlank(trail)
    ensures TrimRight(s + trail) == TrimRight(s)
    decreases |trail|
  {
    hide IsSpaceRune, TrimRight;
    if trail == [] {
      assert s + trail == s;
    } else {
      var w :| 1 <= w <= 3 && w <= |trail| && IsSpaceRune(trail[..w]) && IsBlank(trail[w..]);
      assert s + trail == (s + trail[..w]) + trail[w..];
      BlankLast(s + trail[..w], trail[w..]);
      SpaceLast(s, trail[..w]);
    }
  }

  /** No rune starts with a byte that can continue another. */
  lemma BlankStarts(trail: bytes)
    requires IsBlank(trail) && trail != []
    ensures trail[0] < 0x80 || trail[0] >= 0xC0
  {
    var w :| 1 <= w <= 3 && w <= |trail| && IsSpaceRune(trail[..w]) && IsBlank(trail[w..]);
    assert trail[..w][0] == trail[0];
  }

  lemma LeadingInMiddle(t: bytes, trail: bytes)
    requires t != [] && LeadingSpace(t) == 0 && IsBlank(trail)
    ensures LeadingSpace(t + trail) == 0
  {
    var s := t + trail;
    assert s[..1] == t[..1];
    if |t| >= 2 { assert s[..2] == t[..2]; }
    if |t| >= 3 { assert s[..3] == t[..3]; }
    if trail != [] {
      BlankStarts(trail);
      assert |t| == 1 ==> s[1] == trail[0];
      assert |t| == 2 ==> s[2] == trail[0];
    }
  }

  /** TrimSpace takes off white space at both ends, and all of it. */
  lemma TrimExact(lead: bytes, t: bytes, trail: bytes)
    requires IsBlank(lead) && IsBlank(trail) && LeadingSpace(t) == 0 && TrailingSpace(t) == 0
    ensures TrimSpace(lead + t + trail) == t
  {
    hide LeadingSpace, TrailingSpace, IsSpaceRune, IsBlank;
    assert lead + t + trail == lead + (t + trail);
    BlankFirst(lead, t + trail);
    if t == [] {
      assert t + trail == trail + [];
      BlankFirst(trail, []);
      Nothing();
    } else {
      LeadingInMiddle(t, trail);
      BlankLast(t, trail);
    }
  }

  lemma Nothing()
    ensures LeadingSpace([]) == 0 && TrailingSpace([]) == 0
  {
  }
}
