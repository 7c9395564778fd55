/** Byte strings and the few standard-library string routines the tunnel depends on:
    decimal printing (%d), strconv.Atoi, strings.Split and strings.TrimSpace.
    Go strings are byte sequences, so every string of the program is a `bytes` here. */
module Text {

  type byte = x: int | 0 <= x < 256
  type bytes = seq<byte>

  const NEWLINE: byte := 10
  const PLUS: byte := 43
  const COMMA: byte := 44
  const MINUS: byte := 45
  const DOT: byte := 46
  const COLON: byte := 58

  const MAX_INT64: int := 0x7fff_ffff_ffff_ffff
  const MIN_INT64: int := -0x8000_0000_0000_0000
  const MAX_UINT64: int := 0xffff_ffff_ffff_ffff

  predicate IsInt64(v: int) { MIN_INT64 <= v <= MAX_INT64 }

  predicate IsDigit(c: byte) { 48 <= c <= 57 }

  function DigitValue(c: byte): nat
    requires IsDigit(c)
  { c as int - 48 }

  // ---------- decimal numbers ----------

  function Digits(n: nat): bytes {
    if n < 10 then [48 + n] else Digits(n / 10) + [48 + n % 10]
  }

  /** fmt's %d. */
  function Itoa(v: int): bytes {
    if v < 0 then [MINUS] + Digits(-v) else Digits(v)
  }

  datatype Scan = Value(n: nat) | Syntax | Overflow

  /** The digit loop of strconv.ParseUint: it stops at the first bad digit or at the first
      value above 2^64-1, whichever comes first. */
  function ScanUint(acc: nat, s: bytes): Scan
    decreases |s|
  {
    if s == [] then Value(acc)
    else if !IsDigit(s[0]) then Syntax
    else
      var n := acc * 10 + DigitValue(s[0]);
      if n > MAX_UINT64 then Overflow else ScanUint(n, s[1..])
  }

  datatype Number = Number(value: int, ok: bool)

  /** strconv.Atoi on a 64-bit platform: 0 on a syntax error, the nearest bound on a range error. */
  function Atoi(s: bytes): Number {
    if s == [] then Number(0, false)
    else
      var negative := s[0] == MINUS;
      var body := if s[0] == PLUS || s[0] == MINUS then s[1..] else s;
      if body == [] then Number(0, false)
      else match ScanUint(0, body)
        case Syntax => Number(0, false)
        case Overflow => Number(if negative then MIN_INT64 else MAX_INT64, false)
        case Value(n) =>
          var u: int := n;
          if !negative && u > MAX_INT64 then Number(MAX_INT64, false)
          else if negative && u > -MIN_INT64 then Number(MIN_INT64, false)
          else Number(if negative then -u else u, true)
  }

  lemma {:induction false} ScanAppend(acc: nat, a: bytes, b: bytes)
    decreases |a|
    ensures ScanUint(acc, a + b)
         == match ScanUint(acc, a) case Value(m) => ScanUint(m, b) case other => other
  {
    if a == [] {
      assert a + b == b;
    } else {
      assert (a + b)[1..] == a[1..] + b;
      if IsDigit(a[0]) && acc * 10 + DigitValue(a[0]) <= MAX_UINT64 {
        ScanAppend(acc * 10 + DigitValue(a[0]), a[1..], b);
      }
    }
  }

  lemma {:induction false} ScanDigits(n: nat)
    requires n <= MAX_UINT64
    ensures ScanUint(0, Digits(n)) == Value(n)
  {
    if n < 10 {
      assert [48 + n][1..] == [];
    } else {
      ScanDigits(n / 10);
      ScanAppend(0, Digits(n / 10), [48 + n % 10]);
      assert [48 + n % 10][1..] == [];
    }
  }

  lemma {:induction false} DigitsAreDigits(n: nat)
    ensures Digits(n) != []
    ensures forall c :: c in Digits(n) ==> IsDigit(c)
  {
    if n >= 10 { DigitsAreDigits(n / 10); }
  }

  lemma ItoaBytes(v: int)
    ensures Itoa(v) != []
    ensures forall c :: c in Itoa(v) ==> IsDigit(c) || c == MINUS
  {
    DigitsAreDigits(if v < 0 then -v else v);
  }

  /** Printing then parsing gives the number back, for every 64-bit int. */
  lemma AtoiItoa(v: int)
    requires IsInt64(v)
    ensures Atoi(Itoa(v)) == Number(v, true)
  {
    var u := if v < 0 then -v else v;
    ScanDigits(u);
    DigitsAreDigits(u);
    assert Digits(u)[0] in Digits(u);
    if v < 0 { assert Itoa(v)[1..] == Digits(u); }
  }

  function Pow10(k: nat): (r: nat)
    ensures r >= 1
  { if k == 0 then 1 else 10 * Pow10(k - 1) }

  lemma {:induction false} DigitsLength(n: nat, k: nat)
    requires k >= 1 && n < Pow10(k)
    ensures |Digits(n)| <= k
  {
    if n >= 10 {
      assert Pow10(1) == 10;
      DigitsLength(n / 10, k - 1);
    }
  }

  lemma ItoaLength(v: int)
    requires IsInt64(v)
    ensures 1 <= |Itoa(v)| <= 20
    ensures 0 <= v < 10000 ==> |Itoa(v)| <= 4
    ensures 0 <= v < 100000 ==> |Itoa(v)| <= 5
  {
    ItoaBytes(v);
    assert Pow10(4) == 10000;
    assert Pow10(5) == 10 * Pow10(4);
    assert Pow10(9) == 1000000000 by { assert Pow10(7) == 100 * Pow10(5); assert Pow10(9) == 100 * Pow10(7); }
    assert Pow10(19) == 10000000000000000000 by {
      assert Pow10(11) == 100 * Pow10(9);
      assert Pow10(13) == 100 * Pow10(11);
      assert Pow10(15) == 100 * Pow10(13);
      assert Pow10(17) == 100 * Pow10(15);
      assert Pow10(19) == 100 * Pow10(17);
    }
    DigitsLength(if v < 0 then -v else v, 19);
    if 0 <= v < 10000 { DigitsLength(v, 4); }
    if 0 <= v < 100000 { DigitsLength(v, 5); }
  }

  /** A decimal port as the net package prints it: digits, no leading zero. */
  predicate CanonicalPort(p: bytes) {
    && 1 <= |p| <= 5
    && (forall c :: c in p ==> IsDigit(c))
    && (|p| == 1 || p[0] != 48)
  }

  lemma SmallPowers()
    ensures Pow10(1) == 10 && Pow10(4) == 10000 && Pow10(5) == 100000
  {
    assert Pow10(1) == 10 * Pow10(0);
    assert Pow10(3) == 100 * Pow10(1);
    assert Pow10(5) == 100 * Pow10(3);
  }

  lemma {:induction false} DigitsOfScan(p: bytes)
    requires CanonicalPort(p)
    ensures ScanUint(0, p).Value? && ScanUint(0, p).n < Pow10(|p|)
    ensures Digits(ScanUint(0, p).n) == p
    ensures ScanUint(0, p).n == 0 ==> p == [48]
    decreases |p|
  {
    SmallPowers();
    assert p[0] in p;
    if |p| == 1 {
      assert |p[1..]| == 0;
    } else {
      var a, d := p[..|p| - 1], p[|p| - 1];
      assert p == a + [d];
      assert d in p;
      DigitsOfScan(a);
      var n := ScanUint(0, a).n;
      assert Pow10(|p|) == 10 * Pow10(|a|);
      PowMonotone(|a|, 4);
      ScanAppend(0, a, [d]);
      ScanOne(n, d);
      DivideByTen(n, DigitValue(d));
    }
  }

  lemma ScanOne(n: nat, d: byte)
    requires IsDigit(d) && n < 100000
    ensures ScanUint(n, [d]) == Value(n * 10 + DigitValue(d))
  {
    assert [d][1..] == [];
  }

  lemma DivideByTen(n: nat, d: nat)
    requires d < 10
    ensures (n * 10 + d) / 10 == n && (n * 10 + d) % 10 == d
  {
  }

  lemma {:induction false} PowMonotone(a: nat, b: nat)
    requires a <= b
    ensures Pow10(a) <= Pow10(b)
  {
    if a < b { PowMonotone(a, b - 1); }
  }

  /** Parsing then printing gives a canonical port back. */
  lemma ItoaAtoi(p: bytes)
    requires CanonicalPort(p)
    ensures Itoa(Atoi(p).value) == p && 0 <= Atoi(p).value < 100000
  {
    DigitsOfScan(p);
    assert p[0] in p;
    SmallPowers();
    PowMonotone(|p|, 5);
  }

  // ---------- strings.Split on a one-byte separator ----------

  function Split(s: bytes, sep: byte): (parts: seq<bytes>)
    ensures |parts| >= 1
    ensures forall k :: 0 <= k < |parts| ==> sep !in parts[k]
  {
    if s == [] then [[]]
    else
      var rest := Split(s[1..], sep);
      if s[0] == sep then [[]] + rest else [[s[0]] + rest[0]] + rest[1..]
  }

  function Join(parts: seq<bytes>, sep: byte): bytes
    requires |parts| >= 1
  {
    if |parts| == 1 then parts[0] else parts[0] + [sep] + Join(parts[1..], sep)
  }

  lemma {:induction false} SplitField(a: bytes, rest: bytes, sep: byte)
    requires sep !in a
    ensures Split(a + [sep] + rest, sep) == [a] + Split(rest, sep)
  {
    var s := a + [sep] + rest;
    if a == [] {
      assert s[1..] == rest;
    } else {
      assert s[1..] == a[1..] + [sep] + rest;
      SplitField(a[1..], rest, sep);
      var tail := Split(s[1..], sep);
      assert [a[0]] + tail[0] == a;
      assert tail[1..] == Split(rest, sep);
    }
  }

  lemma {:induction false} SplitLast(a: bytes, sep: byte)
    requires sep !in a
    ensures Split(a, sep) == [a]
  {
    if a != [] {
      SplitLast(a[1..], sep);
      assert [a[0]] + a[1..] == a;
    }
  }

  /** Nothing is lost: putting the separators back rebuilds the text. */
  lemma {:induction false} JoinSplit(s: bytes, sep: byte)
    ensures Join(Split(s, sep), sep) == s
  {
    if s != [] {
      JoinSplit(s[1..], sep);
      var rest := Split(s[1..], sep);
      if s[0] == sep {
        assert ([[]] + rest)[1..] == rest;
      } else {
        var parts := [[s[0]] + rest[0]] + rest[1..];
        assert parts[1..] == rest[1..];
      }
    }
  }

  // ---------- strings.TrimSpace ----------

  /** The UTF-8 encodings of the runes for which unicode.IsSpace holds. */
  predicate IsSpaceRune(r: bytes) {
    || (|r| == 1 && (9 <= r[0] <= 13 || r[0] == 32))
    || (|r| == 2 && r[0] == 0xC2 && (r[1] == 0x85 || r[1] == 0xA0))
    || (|r| == 3 && r[0] == 0xE1 && r[1] == 0x9A && r[2] == 0x80)
    || (|r| == 3 && r[0] == 0xE2 && r[1] == 0x80
        && (0x80 <= r[2] <= 0x8A || r[2] == 0xA8 || r[2] == 0xA9 || r[2] == 0xAF))
    || (|r| == 3 && r[0] == 0xE2 && r[1] == 0x81 && r[2] == 0x9F)
    || (|r| == 3 && r[0] == 0xE3 && r[1] == 0x80 && r[2] == 0x80)
  }

  /** Width of the white-space rune at the start of s, 0 when there is none. */
  function LeadingSpace(s: bytes): (w: nat)
    ensures w <= |s|
  {
    if |s| >= 1 && IsSpaceRune(s[..1]) then 1
    else if |s| >= 2 && IsSpaceRune(s[..2]) then 2
    else if |s| >= 3 && IsSpaceRune(s[..3]) then 3
    else 0
  }

  function TrailingSpace(s: bytes): (w: nat)
    ensures w <= |s|
  {
    if |s| >= 1 && IsSpaceRune(s[|s| - 1..]) then 1
    else if |s| >= 2 && IsSpaceRune(s[|s| - 2..]) then 2
    else if |s| >= 3 && IsSpaceRune(s[|s| - 3..]) then 3
    else 0
  }

  function TrimLeft(s: bytes): bytes {
    var w := LeadingSpace(s);
    if w == 0 then s else TrimLeft(s[w..])
  }

  function TrimRight(s: bytes): (r: bytes)
    ensures r <= s
  {
    var w := TrailingSpace(s);
    if w == 0 then s else TrimRight(s[..|s| - w])
  }

  function TrimSpace(s: bytes): bytes {
    TrimRight(TrimLeft(s))
  }

  lemma {:induction false} TrimLeftResult(s: bytes)
    ensures LeadingSpace(TrimLeft(s)) == 0
    ensures |TrimLeft(s)| <= |s|
  {
    if LeadingSpace(s) != 0 { TrimLeftResult(s[LeadingSpace(s)..]); }
  }

  lemma PrefixLeadingSpace(p: bytes, s: bytes)
    requires p <= s && LeadingSpace(s) == 0
    ensures LeadingSpace(p) == 0
  {
    if |p| >= 1 { assert p[..1] == s[..1]; }
    if |p| >= 2 { assert p[..2] == s[..2]; }
    if |p| >= 3 { assert p[..3] == s[..3]; }
  }

  lemma TrimSpaceResult(s: bytes)
    ensures LeadingSpace(TrimSpace(s)) == 0
    ensures |TrimSpace(s)| <= |s|
  {
    TrimLeftResult(s);
    PrefixLeadingSpace(TrimSpace(s), TrimLeft(s));
  }

  /** A comma never belongs to a white-space rune, so only the text before it matters. */
  lemma LeadingSpaceBeforeComma(a: bytes, rest: bytes)
    ensures LeadingSpace(a + [COMMA] + rest) == LeadingSpace(a)
  {
    var s := a + [COMMA] + rest;
    if |a| >= 1 { assert s[..1] == a[..1]; } else { assert s[0] == COMMA; }
    if |a| >= 2 { assert s[..2] == a[..2]; } else if |s| >= 2 { assert s[|a|] == COMMA; }
    if |a| >= 3 { assert s[..3] == a[..3]; } else if |s| >= 3 { assert s[|a|] == COMMA; }
  }

  lemma NoSpaceAfterComma(t: bytes)
    requires t != [] && t[|t| - 1] == COMMA
    ensures TrailingSpace(t) == 0 && TrailingSpace(t + [NEWLINE]) == 1
  {
    var s := t + [NEWLINE];
    assert s[|s| - 1..] == [NEWLINE];
    assert t[|t| - 1..][0] == COMMA;
    assert |t| >= 2 ==> t[|t| - 2..][1] == COMMA;
    assert |t| >= 3 ==> t[|t| - 3..][2] == COMMA;
  }

  /** TrimSpace of a line that ends ",\n" and does not start with white space drops the newline only. */
  lemma TrimLine(t: bytes)
    requires t != [] && t[|t| - 1] == COMMA && LeadingSpace(t) == 0
    ensures TrimSpace(t + [NEWLINE]) == t
  {
    hide IsSpaceRune, LeadingSpace, TrailingSpace;
    var s := t + [NEWLINE];
    var a := t[..|t| - 1];
    assert s == a + [COMMA] + [NEWLINE] && t == a + [COMMA] + [];
    LeadingSpaceBeforeComma(a, [NEWLINE]);
    LeadingSpaceBeforeComma(a, []);
    NoSpaceAfterComma(t);
    assert s[..|s| - 1] == t;
    assert TrimLeft(s) == s && TrimRight(s) == TrimRight(t) == t;
  }
}
